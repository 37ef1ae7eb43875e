/**
  The bodies of the program association and program map sections: decoding loops, and encoders they invert.
 */
module Tables {
  import opened Bytes

  const CRC_LENGTH: nat := 4

  /** A key with its value, in the order of the table. */
  type Entries = seq<(int, int)>

  /** Inserting the entries one by one; an entry whose key is already there changes nothing. */
  function FirstWins(entries: Entries): (m: map<int, int>)
  {
    if entries == [] then map[]
    else
      var before, last := FirstWins(entries[..|entries| - 1]), entries[|entries| - 1];
      if last.0 in before then before else before[last.0 := last.1]
  }

  /** Exactly the listed keys are there, each with the value of its first entry. */
  lemma {:induction false} FirstWinsMeaning(entries: Entries, key: int)
    ensures key in FirstWins(entries) <==> exists k :: 0 <= k < |entries| && entries[k].0 == key
    ensures key in FirstWins(entries) ==>
              exists k :: 0 <= k < |entries| && entries[k] == (key, FirstWins(entries)[key]) &&
                          forall j :: 0 <= j < k ==> entries[j].0 != key
  {
    if entries != [] {
      var front, last := entries[..|entries| - 1], entries[|entries| - 1];
      FirstWinsMeaning(front, key);
      if key in FirstWins(front) {
        var k :| 0 <= k < |front| && front[k] == (key, FirstWins(front)[key]) &&
                 forall j :: 0 <= j < k ==> front[j].0 != key;
        assert entries[k] == front[k] && forall j :: 0 <= j < k ==> entries[j] == front[j];
      } else if last.0 == key {
        assert forall j :: 0 <= j < |front| ==> entries[j] == front[j];
      } else {
        assert forall j :: 0 <= j < |front| ==> entries[j] == front[j];
      }
    }
  }

  // ---------------------------------------------------------------- program association

  ghost function PatEntry(s: seq<Byte>): (int, int)
    requires |s| >= 4
  {
    (ThirteenBits(s[2], s[3]), SixteenBits(s[0], s[1]))
  }

  /** PID and program number of each entry in front of the checksum. */
  ghost function PatEntries(s: seq<Byte>): Entries {
    if |s| <= CRC_LENGTH then [] else [PatEntry(s)] + PatEntries(s[4..])
  }

  method ParsePatPayload(data: seq<Byte>) returns (pat: map<int, int>)
    requires |data| >= CRC_LENGTH
    ensures pat == FirstWins(PatEntries(data))
  {
    pat := map[];
    var position := 0;
    ghost var done: Entries := [];
    assert data[0..] == data;
    while position < |data| - CRC_LENGTH
      invariant position <= |data|
      invariant done + PatEntries(data[position..]) == PatEntries(data)
      invariant pat == FirstWins(done)
    {
      ghost var tail := data[position..];
      assert tail[4..] == data[position + 4..];
      var programNumber := ReadSixteenBits(data[position], data[position + 1]);
      position := position + 2;
      var pid := ReadThirteenBits(data[position], data[position + 1]);
      position := position + 2;
      assert (pid, programNumber) == PatEntry(tail);
      Emplace(done, pid, programNumber);
      Regroup(done, (pid, programNumber), PatEntries(data[position..]));
      done := done + [(pid, programNumber)];
      if pid !in pat {
        pat := pat[pid := programNumber];
      }
    }
    assert PatEntries(data[position..]) == [];
    assert done + [] == done;
  }

  lemma {:induction false} Emplace(entries: Entries, key: int, value: int)
    ensures FirstWins(entries + [(key, value)]) ==
            if key in FirstWins(entries) then FirstWins(entries) else FirstWins(entries)[key := value]
  {
    var more := entries + [(key, value)];
    assert more[..|more| - 1] == entries;
  }

  datatype PatItem = PatItem(programNumber: int, reserved: int, pid: int)

  ghost predicate WellFormedPatItem(x: PatItem) {
    0 <= x.programNumber < 65536 && 0 <= x.reserved < 8 && 0 <= x.pid < 8192
  }

  ghost function EncodePatItem(x: PatItem): seq<Byte>
    requires WellFormedPatItem(x)
  {
    [x.programNumber / 256, x.programNumber % 256, x.reserved * 32 + x.pid / 256, x.pid % 256]
  }

  ghost function EncodePat(items: seq<PatItem>, crc: seq<Byte>): seq<Byte>
    requires forall k :: 0 <= k < |items| ==> WellFormedPatItem(items[k])
  {
    if items == [] then crc
    else EncodePatItem(items[0]) + EncodePat(items[1..], crc)
  }

  ghost function PatContents(items: seq<PatItem>): Entries {
    if items == [] then [] else [(items[0].pid, items[0].programNumber)] + PatContents(items[1..])
  }

  /** Decoding an encoded table gives its entries, for any number of entries and any checksum. */
  lemma {:induction false} PatRoundTrip(items: seq<PatItem>, crc: seq<Byte>)
    requires forall k :: 0 <= k < |items| ==> WellFormedPatItem(items[k])
    requires |crc| == 4
    ensures |EncodePat(items, crc)| == 4 * |items| + 4
    ensures PatEntries(EncodePat(items, crc)) == PatContents(items)
  {
    if items != [] {
      var x, s := items[0], EncodePat(items, crc);
      PatRoundTrip(items[1..], crc);
      assert s[4..] == EncodePat(items[1..], crc);
      ThirteenBitsReadBack(s[2], s[3], x.reserved, x.pid);
      assert PatEntry(s) == (x.pid, x.programNumber);
    }
  }

  /** Every four bytes in front of the checksum are an entry; of a payload of another length the last entry reaches into
      the checksum. */
  lemma {:induction false} PatEntriesMeaning(s: seq<Byte>, k: nat)
    ensures |PatEntries(s)| == if |s| <= 4 then 0 else (|s| - 1) / 4
    ensures k < |PatEntries(s)| ==>
              4 * k + 4 <= |s| && PatEntries(s)[k] == (s[4 * k + 2] as int % 32 * 256 + s[4 * k + 3] as int,
                                                       s[4 * k] as int * 256 + s[4 * k + 1] as int)
  {
    PatEntriesCount(s);
    if k < |PatEntries(s)| {
      PatEntryAt(s, k, 4 * k);
      var tail := s[4 * k..];
      assert tail[0] == s[4 * k] && tail[1] == s[4 * k + 1] && tail[2] == s[4 * k + 2] && tail[3] == s[4 * k + 3];
    }
  }

  lemma {:induction false} PatEntriesCount(s: seq<Byte>)
    ensures |PatEntries(s)| == if |s| <= 4 then 0 else (|s| - 1) / 4
  {
    if |s| > 4 {
      PatEntriesCount(s[4..]);
    }
  }

  lemma {:induction false} PatEntryAt(s: seq<Byte>, k: nat, at: nat)
    requires k < |PatEntries(s)| && at == 4 * k
    ensures at + 4 <= |s| && PatEntries(s)[k] == PatEntry(s[at..])
  {
    if k > 0 {
      PatEntryAt(s[4..], k - 1, at - 4);
      assert s[4..][at - 4..] == s[at..];
    }
  }

  // ---------------------------------------------------------------- program map

  ghost function PmtEntry(s: seq<Byte>): (int, int)
    requires |s| >= 5
  {
    (ThirteenBits(s[1], s[2]), s[0])
  }

  /** PID and stream type of each elementary stream in front of the checksum; descriptors are skipped, and one that
      claims to be longer than what is left ends the table. */
  ghost function StreamEntries(s: seq<Byte>): Entries
    decreases |s|
  {
    if |s| <= CRC_LENGTH then []
    else
      var next := 5 + TwelveBits(s[3], s[4]);
      [PmtEntry(s)] + if next <= |s| then StreamEntries(s[next..]) else []
  }

  ghost function PmtEntries(s: seq<Byte>): Entries
    requires |s| >= CRC_LENGTH
  {
    var start := 4 + TwelveBits(s[2], s[3]);
    if start <= |s| then StreamEntries(s[start..]) else []
  }

  method ParsePmtPayload(data: seq<Byte>) returns (pmt: map<int, int>)
    requires |data| >= CRC_LENGTH
    ensures pmt == FirstWins(PmtEntries(data))
  {
    var position := 2;
    var programInfoLength := ReadTwelveBits(data[position], data[position + 1]);
    position := position + 2;
    position := position + programInfoLength;
    pmt := map[];
    ghost var done: Entries, rest: Entries := [], PmtEntries(data);
    while position < |data| - CRC_LENGTH
      invariant 0 <= position
      invariant rest == if position <= |data| then StreamEntries(data[position..]) else []
      invariant done + rest == PmtEntries(data) && pmt == FirstWins(done)
      decreases |data| - position
    {
      ghost var from := position;
      var streamType := data[position];
      position := position + 1;
      var elementaryPid := ReadThirteenBits(data[position], data[position + 1]);
      position := position + 2;
      var esInfoLength := ReadTwelveBits(data[position], data[position + 1]);
      position := position + 2;
      position := position + esInfoLength;
      ghost var entry: (int, int) := (elementaryPid, streamType);
      rest := StreamStep(data, from, entry, position);
      Regroup(done, entry, rest);
      Emplace(done, elementaryPid, streamType);
      done := done + [entry];
      if elementaryPid !in pmt {
        pmt := pmt[elementaryPid := streamType];
      }
    }
    assert done + [] == done;
  }

  /** One round of the loop in terms of offsets. */
  lemma {:induction false} StreamStep(data: seq<Byte>, from: nat, entry: (int, int), next: nat) returns (rest: Entries)
    requires from < |data| - CRC_LENGTH
    requires entry == (ThirteenBits(data[from + 1], data[from + 2]), data[from])
    requires next == from + 5 + TwelveBits(data[from + 3], data[from + 4])
    ensures rest == if next <= |data| then StreamEntries(data[next..]) else []
    ensures StreamEntries(data[from..]) == [entry] + rest
  {
    var tail := data[from..];
    assert PmtEntry(tail) == entry && TwelveBits(tail[3], tail[4]) == next - from - 5;
    rest := if next <= |data| then StreamEntries(data[next..]) else [];
    if next <= |data| {
      assert tail[next - from..] == data[next..];
    }
  }

  datatype PmtItem = PmtItem(streamType: int, reserved: int, pid: int, infoReserved: int, info: seq<Byte>)

  ghost predicate WellFormedPmtItem(x: PmtItem) {
    && 0 <= x.streamType < 256 && 0 <= x.reserved < 8 && 0 <= x.pid < 8192
    && 0 <= x.infoReserved < 16 && |x.info| < 4096
  }

  ghost function EncodeStreams(items: seq<PmtItem>, crc: seq<Byte>): seq<Byte>
    requires forall k :: 0 <= k < |items| ==> WellFormedPmtItem(items[k])
  {
    if items == [] then crc
    else EncodePmtItem(items[0]) + EncodeStreams(items[1..], crc)
  }

  ghost function EncodePmtItem(x: PmtItem): seq<Byte>
    requires WellFormedPmtItem(x)
  {
    [x.streamType, x.reserved * 32 + x.pid / 256, x.pid % 256, x.infoReserved * 16 + |x.info| / 256, |x.info| % 256]
    + x.info
  }

  ghost function EncodePmt(clockPid: seq<Byte>, reserved: int, programInfo: seq<Byte>, items: seq<PmtItem>,
                           crc: seq<Byte>): seq<Byte>
    requires |clockPid| == 2 && 0 <= reserved < 16 && |programInfo| < 4096
    requires forall k :: 0 <= k < |items| ==> WellFormedPmtItem(items[k])
  {
    clockPid + [reserved * 16 + |programInfo| / 256, |programInfo| % 256] + programInfo + EncodeStreams(items, crc)
  }

  ghost function PmtContents(items: seq<PmtItem>): Entries {
    if items == [] then [] else [(items[0].pid, items[0].streamType)] + PmtContents(items[1..])
  }

  lemma {:induction false} StreamsRoundTrip(items: seq<PmtItem>, crc: seq<Byte>)
    requires forall k :: 0 <= k < |items| ==> WellFormedPmtItem(items[k])
    requires |crc| == 4
    ensures StreamEntries(EncodeStreams(items, crc)) == PmtContents(items) && |EncodeStreams(items, crc)| >= CRC_LENGTH
  {
    if items != [] {
      var x, s, rest := items[0], EncodeStreams(items, crc), EncodeStreams(items[1..], crc);
      StreamsRoundTrip(items[1..], crc);
      assert s == EncodePmtItem(x) + rest;
      StreamItemReadBack(x, rest);
    }
  }

  lemma {:induction false} StreamItemReadBack(x: PmtItem, rest: seq<Byte>)
    requires WellFormedPmtItem(x) && |rest| >= CRC_LENGTH
    ensures StreamEntries(EncodePmtItem(x) + rest) == [(x.pid, x.streamType)] + StreamEntries(rest)
  {
    var s := EncodePmtItem(x) + rest;
    PmtItemFields(x, rest, s);
    var n := 5 + |x.info|;
    assert s[n..] == rest;
  }

  lemma {:induction false} PmtItemFields(x: PmtItem, rest: seq<Byte>, s: seq<Byte>)
    requires WellFormedPmtItem(x) && s == EncodePmtItem(x) + rest
    ensures |s| == 5 + |x.info| + |rest| && PmtEntry(s) == (x.pid, x.streamType)
    ensures TwelveBits(s[3], s[4]) == |x.info|
  {
    ThirteenBitsReadBack(s[1], s[2], x.reserved, x.pid);
    TwelveBitsReadBack(s[3], s[4], x.infoReserved, |x.info|);
  }

  /** Decoding an encoded table gives its entries, for any descriptors, any number of entries and any checksum. */
  lemma {:induction false} PmtRoundTrip(clockPid: seq<Byte>, reserved: int, programInfo: seq<Byte>, items: seq<PmtItem>,
                                        crc: seq<Byte>)
    requires |clockPid| == 2 && 0 <= reserved < 16 && |programInfo| < 4096 && |crc| == 4
    requires forall k :: 0 <= k < |items| ==> WellFormedPmtItem(items[k])
    ensures |EncodePmt(clockPid, reserved, programInfo, items, crc)| >= CRC_LENGTH
    ensures PmtEntries(EncodePmt(clockPid, reserved, programInfo, items, crc)) == PmtContents(items)
  {
    var s := EncodePmt(clockPid, reserved, programInfo, items, crc);
    StreamsRoundTrip(items, crc);
    TwelveBitsReadBack(s[2], s[3], reserved, |programInfo|);
    assert s[4 + |programInfo|..] == EncodeStreams(items, crc);
  }

  /** A stream whose descriptors claim to be longer than what is left is listed, and ends the table. */
  lemma {:induction false} OverrunEndsTable(x: PmtItem, rest: seq<Byte>)
    requires WellFormedPmtItem(x) && |rest| < |x.info|
    ensures StreamEntries(EncodePmtItem(x)[..5] + rest) == [(x.pid, x.streamType)]
  {
    var s := EncodePmtItem(x)[..5] + rest;
    ThirteenBitsReadBack(s[1], s[2], x.reserved, x.pid);
    TwelveBitsReadBack(s[3], s[4], x.infoReserved, |x.info|);
  }
}
