/**
  The smallest multiplex that does something: one program with one stream, announced by one section each.
 */
module OneProgram {
  import opened Bytes
  import opened TsPackets
  import opened Framing
  import opened PsiSections
  import opened PsiReassembly
  import opened Tables
  import opened PesPackets
  import opened DemuxModel
  import opened Demuxers
  import opened Packetizers
  import opened Pumps
  import opened DemuxInvariants
  import opened EndToEnd
  import opened Multiplex

  const CRC: seq<Byte> := [0, 0, 0, 0]
  const EXTENSION: seq<Byte> := [0, 0, 0, 0, 0]

  ghost predicate Pids(mapPid: int, streamPid: int, streamType: int) {
    0 < mapPid < 8192 && 0 < streamPid < 8192 && mapPid != streamPid && 0 <= streamType < 256
  }

  ghost function PatSection(mapPid: int): (s: Section)
    requires 0 < mapPid < 8192
    ensures WellFormedSection(s)
  {
    PatRoundTrip([PatItem(1, 7, mapPid)], CRC);
    Section(0, 11, EXTENSION, EncodePat([PatItem(1, 7, mapPid)], CRC), 0)
  }

  ghost function MapTable(streamPid: int, streamType: int): Pmt {
    Pmt([0, 0], 15, [], [PmtItem(streamType, 7, streamPid, 15, [])], CRC)
  }

  ghost function PmtSection(streamPid: int, streamType: int): (s: Section)
    requires 0 < streamPid < 8192 && 0 <= streamType < 256
    ensures WellFormedSection(s)
  {
    var t := MapTable(streamPid, streamType);
    MapTableIsShort(streamPid, streamType);
    Section(2, 11, EXTENSION, EncodePmt(t.clockPid, t.reserved, t.programInfo, t.items, t.crc), 0)
  }

  lemma {:induction false} MapTableIsShort(streamPid: int, streamType: int)
    requires 0 < streamPid < 8192 && 0 <= streamType < 256
    ensures var t := MapTable(streamPid, streamType);
            Multiplex.WellFormedPmt(t) && |EncodePmt(t.clockPid, t.reserved, t.programInfo, t.items, t.crc)| == 13
  {
    var t := MapTable(streamPid, streamType);
    assert EncodeStreams(t.items[1..], CRC) == CRC;
    assert EncodeStreams(t.items, CRC) == EncodePmtItem(t.items[0]) + CRC;
  }

  ghost function ThePlan(mapPid: int, streamPid: int, streamType: int): Plan
    requires Pids(mapPid, streamPid, streamType)
  {
    Plan(map[PAT_PID := [PatSection(mapPid)], mapPid := [PmtSection(streamPid, streamType)]], map[streamPid := streamType])
  }

  /** A section in two packets, cut anywhere: the front behind a pointer field, the back in a payload of its own. */
  ghost predicate SplitsSection(a: Data, b: Data, pid: int, section: Section, cut: nat)
    requires WellFormedSection(section)
  {
    && 0 < cut < |EncodeSection(section)|
    && a == Data(pid, true, true, [0] + EncodeSection(section)[..cut])
    && b == Data(pid, false, true, EncodeSection(section)[cut..])
  }

  lemma {:induction false} OneSection(section: Section)
    requires WellFormedSection(section) && section.padding == 0
    ensures EncodeSections([section]) == EncodeSection(section)
    ensures Sections(EncodeSection(section)) == [section.body]
  {
    assert EncodeSections([section][1..]) == [] && Padding(0) == [];
    assert EncodeSections([section]) == EncodeSection(section) + ([] + []);
    EncodedSectionsComeBack([section]);
    OneBody(section);
  }

  /** Both packets continue the table, and the section is seen behind the second. */
  lemma {:induction false} TwoPieces(done: seq<Data>, a: Data, b: Data, pid: int, section: Section, cut: nat)
    requires WellFormedSection(section) && section.padding == 0 && Carried(done, pid) == []
    requires SplitsSection(a, b, pid, section, cut)
    ensures ContinuesTable([section], [], a, EncodeSection(section)[..cut])
    ensures Carried(done + [a], pid) == EncodeSection(section)[..cut]
    ensures ContinuesTable([section], EncodeSection(section)[..cut], b, EncodeSection(section)[cut..])
    ensures Seen(done + [a] + [b], pid) == [section.body]
  {
    var e := EncodeSection(section);
    var front, back := e[..cut], e[cut..];
    OneSection(section);
    assert front + back == e;
    ShortSectionIsIncomplete(section, front);
    FrontCarries(done, a, pid, section, front);
    BackCarries(done + [a], b, pid, section, front, back);
  }

  lemma {:induction false} FrontCarries(done: seq<Data>, a: Data, pid: int, section: Section, front: seq<Byte>)
    requires WellFormedSection(section) && Carried(done, pid) == [] && front <= EncodeSections([section])
    requires a == Data(pid, true, true, [0] + front)
    ensures ContinuesTable([section], [], a, front) && Carried(done + [a], pid) == front
  {
    StrippedIsPiece(true, a.payload, front);
    CarriedSnoc(done, a, pid);
    assert [] + front == front && !HasSection([]);
  }

  lemma {:induction false} BackCarries(done: seq<Data>, b: Data, pid: int, section: Section, front: seq<Byte>,
                                       back: seq<Byte>)
    requires WellFormedSection(section) && Carried(done, pid) == front && !HasSection(front)
    requires front + back == EncodeSections([section]) && Sections(front + back) == [section.body]
    requires b == Data(pid, false, true, back)
    ensures ContinuesTable([section], front, b, back) && Seen(done + [b], pid) == [section.body]
  {
    StrippedIsPiece(false, b.payload, back);
    CarriedSnoc(done, b, pid);
  }

  lemma {:induction false} OneBody(section: Section)
    ensures Bodies([section]) == [section.body]
  {
    assert Bodies([section]) == [section.body] + Bodies([section][1..]);
  }

  lemma {:induction false} PlanIsWellFormed(mapPid: int, streamPid: int, streamType: int)
    requires Pids(mapPid, streamPid, streamType)
    ensures WellFormedPlan(ThePlan(mapPid, streamPid, streamType))
  {
    var x, pat, pmt := ThePlan(mapPid, streamPid, streamType), PatSection(mapPid), PmtSection(streamPid, streamType);
    OneBody(pat);
    OneBody(pmt);
    assert IsPatOf(x, pat.body, [PatItem(1, 7, mapPid)], CRC);
    MapTableIsShort(streamPid, streamType);
    assert IsPmtOf(x, pmt.body, MapTable(streamPid, streamType));
    assert TableIsSound(x, PAT_PID) && TableIsSound(x, mapPid);
  }

  lemma {:induction false} PatNamesMap(mapPid: int)
    requires 0 < mapPid < 8192
    ensures mapPid in PatOf(PatSection(mapPid).body)
  {
    var items := [PatItem(1, 7, mapPid)];
    PatRoundTrip(items, CRC);
    PatContentsAre(items, 0);
    FirstWinsMeaning(PatContents(items), mapPid);
  }

  lemma {:induction false} PmtNamesStream(streamPid: int, streamType: int)
    requires 0 < streamPid < 8192 && 0 <= streamType < 256
    ensures streamPid in PmtOf(PmtSection(streamPid, streamType).body)
  {
    var t := MapTable(streamPid, streamType);
    MapTableIsShort(streamPid, streamType);
    PmtRoundTrip(t.clockPid, t.reserved, t.programInfo, t.items, t.crc);
    PmtContentsAre(t.items, 0);
    FirstWinsMeaning(PmtContents(t.items), streamPid);
  }

  lemma {:induction false} StartIsPlanned(x: Plan)
    requires WellFormedPlan(x)
    ensures Planned(x, [])
  {
  }

  lemma {:induction false} MorePlanned(x: Plan, done: seq<Data>, d: Data)
    requires WellFormedPlan(x) && Planned(x, done) && Continues(x, done, d)
    ensures Planned(x, done + [d])
  {
    var packets := done + [d];
    forall k | 0 <= k < |packets| ensures Continues(x, packets[..k], packets[k]) {
      if k < |done| {
        assert packets[..k] == done[..k];
      } else {
        assert packets[..k] == done;
      }
    }
  }

  /** An announced table's only section, spread over two packets, is planned; other PIDs carry what they carried. */
  lemma {:induction false} SplitIsPlanned(x: Plan, done: seq<Data>, a: Data, b: Data, pid: int, section: Section,
                                          cut: nat)
    requires WellFormedPlan(x) && pid in x.tables && x.tables[pid] == [section]
    requires WellFormedSection(section) && section.padding == 0 && SplitsSection(a, b, pid, section, cut)
    requires Planned(x, done) && TableAnnounced(done, pid) && TableAnnounced(done + [a], pid) && Carried(done, pid) == []
    ensures Planned(x, done + [a] + [b]) && Seen(done + [a] + [b], pid) == [section.body]
  {
    TwoPieces(done, a, b, pid, section, cut);
    assert TableIsSound(x, pid) && pid !in x.streams;
    MorePlanned(x, done, a);
    MorePlanned(x, done + [a], b);
  }

  lemma {:induction false} OthersCarryTheSame(done: seq<Data>, a: Data, b: Data, pid: int)
    requires a.pid != pid && b.pid != pid
    ensures Own(done + [a] + [b], pid) == Own(done, pid) && Carried(done + [a] + [b], pid) == Carried(done, pid)
  {
    OtherPidsCarryTheSame(done, a, pid);
    OtherPidsCarryTheSame(done + [a], b, pid);
  }

  lemma {:induction false} FirstIsPlanned(x: Plan, pat: Section, mapPid: int, a: Data, b: Data, cut: nat)
    requires mapPid != PAT_PID && WellFormedPlan(x) && x.tables[PAT_PID] == [pat]
    requires WellFormedSection(pat) && pat.padding == 0 && mapPid in PatOf(pat.body)
    requires SplitsSection(a, b, PAT_PID, pat, cut)
    ensures Planned(x, [] + [a] + [b]) && TableAnnounced([] + [a] + [b], mapPid)
    ensures Carried([] + [a] + [b], mapPid) == []
  {
    StartIsPlanned(x);
    SplitIsPlanned(x, [], a, b, PAT_PID, pat, cut);
    OthersCarryTheSame([], a, b, mapPid);
    assert mapPid in NamedBy(true, Seen([] + [a] + [b], PAT_PID)[0]);
  }

  lemma {:induction false} SecondIsPlanned(x: Plan, done: seq<Data>, mapPid: int, section: Section, streamPid: int,
                                           a: Data, b: Data, cut: nat)
    requires WellFormedPlan(x) && mapPid in x.tables && x.tables[mapPid] == [section] && mapPid != PAT_PID
    requires WellFormedSection(section) && section.padding == 0 && streamPid in PmtOf(section.body)
    requires Planned(x, done) && TableAnnounced(done, mapPid) && Carried(done, mapPid) == []
    requires SplitsSection(a, b, mapPid, section, cut)
    ensures Planned(x, done + [a] + [b]) && StreamAnnounced(x, done + [a] + [b], streamPid)
  {
    OtherPidsCarryTheSame(done, a, PAT_PID);
    SplitIsPlanned(x, done, a, b, mapPid, section, cut);
    assert streamPid in NamedBy(false, Seen(done + [a] + [b], mapPid)[0]);
  }

  lemma {:induction false} ThirdIsPlanned(x: Plan, done: seq<Data>, streamPid: int, header: PesHeader, es: seq<Byte>,
                                          d: Data)
    requires WellFormedPlan(x) && streamPid in x.streams && Planned(x, done) && StreamAnnounced(x, done, streamPid)
    requires WellFormedHeader(header) && d == Data(streamPid, true, true, EncodeHeader(header) + es)
    ensures Planned(x, done + [d]) && StreamAnnounced(x, done + [d], streamPid)
  {
    HeaderRoundTrip(header, es);
    MorePlanned(x, done, d);
    NothingNewAnnounced(x, done, d);
  }

  lemma {:induction false} OneStreamPacket(d: Data, header: PesHeader, es: seq<Byte>)
    requires WellFormedHeader(header) && d.unitStart && d.payload == EncodeHeader(header) + es
    ensures CarriesStream([d], [header], [es]) && Concat([es]) == es
  {
    assert Concat([es]) == Concat([]) + es;
  }

  /** The association table and the map table, each cut in two, and a packet with stream bytes behind a header. */
  ghost predicate ThePackets(packets: seq<Data>, mapPid: int, streamPid: int, streamType: int, patCut: nat, pmtCut: nat,
                             header: PesHeader, es: seq<Byte>)
    requires Pids(mapPid, streamPid, streamType) && WellFormedHeader(header)
  {
    && |packets| == 5
    && SplitsSection(packets[0], packets[1], PAT_PID, PatSection(mapPid), patCut)
    && SplitsSection(packets[2], packets[3], mapPid, PmtSection(streamPid, streamType), pmtCut)
    && packets[4] == Data(streamPid, true, true, EncodeHeader(header) + es)
  }

  /** Plans can be met, for any PIDs and type, any cuts, any header and stream bytes. */
  lemma {:induction false} OneProgramIsPlanned(packets: seq<Data>, mapPid: int, streamPid: int, streamType: int,
                                               patCut: nat, pmtCut: nat, header: PesHeader, es: seq<Byte>)
    requires Pids(mapPid, streamPid, streamType) && WellFormedHeader(header)
    requires ThePackets(packets, mapPid, streamPid, streamType, patCut, pmtCut, header, es)
    ensures var x := ThePlan(mapPid, streamPid, streamType);
            && WellFormedPlan(x) && Planned(x, packets) && StreamAnnounced(x, packets, streamPid)
            && CarriesStream(Own(packets, streamPid), [header], [es]) && Concat([es]) == es
  {
    PlanIsWellFormed(mapPid, streamPid, streamType);
    PmtNamesStream(streamPid, streamType);
    PatNamesMap(mapPid);
    AllIsPlanned(ThePlan(mapPid, streamPid, streamType), packets, PatSection(mapPid), mapPid,
                 PmtSection(streamPid, streamType), streamPid, patCut, pmtCut, header, es);
  }

  lemma {:induction false} AllIsPlanned(x: Plan, p: seq<Data>, pat: Section, mapPid: int, section: Section,
                                        streamPid: int, patCut: nat, pmtCut: nat, header: PesHeader, es: seq<Byte>)
    requires WellFormedPlan(x) && x.tables[PAT_PID] == [pat] && |p| == 5
    requires WellFormedSection(pat) && pat.padding == 0 && mapPid in PatOf(pat.body)
    requires SplitsSection(p[0], p[1], PAT_PID, pat, patCut)
    requires mapPid != PAT_PID && mapPid in x.tables && x.tables[mapPid] == [section]
    requires WellFormedSection(section) && section.padding == 0 && streamPid in PmtOf(section.body)
    requires SplitsSection(p[2], p[3], mapPid, section, pmtCut)
    requires streamPid in x.streams && streamPid != PAT_PID && streamPid != mapPid
    requires WellFormedHeader(header) && p[4] == Data(streamPid, true, true, EncodeHeader(header) + es)
    ensures Planned(x, p) && StreamAnnounced(x, p, streamPid)
    ensures CarriesStream(Own(p, streamPid), [header], [es]) && Concat([es]) == es
  {
    var d := p[4];
    assert p[0].pid == PAT_PID && p[1].pid == PAT_PID && p[2].pid == mapPid && p[3].pid == mapPid;
    var four := TablesArePlanned(x, p[0], p[1], p[2], p[3], pat, mapPid, section, streamPid, patCut, pmtCut);
    StreamIsPlanned(x, p, four, d, streamPid, header, es);
  }

  lemma {:induction false} TablesArePlanned(x: Plan, a: Data, b: Data, c: Data, d: Data, pat: Section, mapPid: int,
                                            section: Section, streamPid: int, patCut: nat, pmtCut: nat)
    returns (four: seq<Data>)
    requires mapPid != PAT_PID && WellFormedPlan(x) && x.tables[PAT_PID] == [pat]
    requires WellFormedSection(pat) && pat.padding == 0 && mapPid in PatOf(pat.body)
    requires SplitsSection(a, b, PAT_PID, pat, patCut)
    requires mapPid in x.tables && x.tables[mapPid] == [section]
    requires WellFormedSection(section) && section.padding == 0 && streamPid in PmtOf(section.body)
    requires SplitsSection(c, d, mapPid, section, pmtCut)
    ensures four == [] + [a] + [b] + [c] + [d] && Planned(x, four) && StreamAnnounced(x, four, streamPid)
  {
    four := [] + [a] + [b] + [c] + [d];
    FirstIsPlanned(x, pat, mapPid, a, b, patCut);
    SecondIsPlanned(x, [] + [a] + [b], mapPid, section, streamPid, c, d, pmtCut);
  }

  lemma {:induction false} StreamIsPlanned(x: Plan, p: seq<Data>, four: seq<Data>, d: Data, streamPid: int,
                                           header: PesHeader, es: seq<Byte>)
    requires WellFormedPlan(x) && streamPid in x.streams && |p| == 5
    requires four == [] + [p[0]] + [p[1]] + [p[2]] + [p[3]] && Planned(x, four) && StreamAnnounced(x, four, streamPid)
    requires p[0].pid != streamPid && p[1].pid != streamPid && p[2].pid != streamPid && p[3].pid != streamPid
    requires p[4] == d
    requires WellFormedHeader(header) && d == Data(streamPid, true, true, EncodeHeader(header) + es)
    ensures Planned(x, p) && StreamAnnounced(x, p, streamPid)
    ensures CarriesStream(Own(p, streamPid), [header], [es]) && Concat([es]) == es
  {
    ThirdIsPlanned(x, four, streamPid, header, es, d);
    OwnsTheLast(p, [] + [p[0]] + [p[1]], four, streamPid);
    OneStreamPacket(d, header, es);
  }

  /** Only the last packet is the stream's. */
  lemma {:induction false} OwnsTheLast(p: seq<Data>, two: seq<Data>, four: seq<Data>, pid: int)
    requires |p| == 5 && two == [] + [p[0]] + [p[1]] && four == two + [p[2]] + [p[3]]
    requires p[0].pid != pid && p[1].pid != pid && p[2].pid != pid && p[3].pid != pid && p[4].pid == pid
    ensures Own(p, pid) == [p[4]] && four + [p[4]] == p
  {
    OthersCarryTheSame([], p[0], p[1], pid);
    OthersCarryTheSame(two, p[2], p[3], pid);
    OwnSnoc(four, p[4], pid);
    assert four + [p[4]] == p && [] + [p[4]] == [p[4]];
  }

  // ---------------------------------------------------------------- on the wire

  /** A packet that carries the payload, filled up with an adaptation field. */
  ghost function Stuffed(d: Data): (u: Unit)
    requires 0 <= d.pid < 8192 && |d.payload| <= PACKET_SIZE - 4
    ensures WellFormedUnit(u) && u.pid == d.pid && u.payloadUnitStart == d.unitStart && u.payload == d.payload
  {
    var spare := PACKET_SIZE - 4 - |d.payload|;
    Unit(d.pid, d.unitStart, 0, 0, 0, 1, 0, if spare > 0 then seq(spare - 1, _ => 0) else [], spare > 0, d.payload)
  }

  ghost predicate FitsPacket(d: Data) {
    0 <= d.pid < 8192 && d.fits && |d.payload| <= PACKET_SIZE - 4
  }

  ghost function StuffedAll(packets: seq<Data>): (units: seq<Unit>)
    requires forall k :: 0 <= k < |packets| ==> FitsPacket(packets[k])
    ensures AllWellFormed(units) && UnitsData(units) == packets
  {
    if packets == [] then []
    else
      assert FitsPacket(packets[0]);
      var first, rest := Stuffed(packets[0]), StuffedAll(packets[1..]);
      assert ([first] + rest)[1..] == rest;
      [first] + rest
  }

  /** Frames one behind the other. */
  ghost function Row(frames: seq<seq<Byte>>): seq<Byte> {
    if frames == [] then [] else frames[0] + Row(frames[1..])
  }

  ghost function NoGaps(n: nat): (gaps: seq<seq<Byte>>)
    ensures |gaps| == n && forall k :: 0 <= k < n ==> gaps[k] == []
  {
    seq(n, _ => [])
  }

  lemma {:induction false} RowIsWoven(frames: seq<seq<Byte>>, gaps: seq<seq<Byte>>)
    requires |gaps| == |frames| + 1 && forall k :: 0 <= k < |gaps| ==> gaps[k] == []
    ensures Weave(gaps, frames, []) == Row(frames)
  {
    if frames != [] {
      RowIsWoven(frames[1..], gaps[1..]);
      assert [] + frames[0] == frames[0];
    }
  }

  lemma {:induction false} UnitsAreFrames(units: seq<Unit>)
    requires AllWellFormed(units)
    ensures forall k :: 0 <= k < |units| ==> IsFrame(EncodeUnits(units)[k])
  {
    if units != [] {
      DecodeEncoded(units[0]);
      UnitsAreFrames(units[1..]);
    }
  }

  lemma {:induction false} RowOfFrames(frames: seq<seq<Byte>>)
    requires forall k :: 0 <= k < |frames| ==> IsFrame(frames[k])
    ensures |Row(frames)| == PACKET_SIZE * |frames| && (frames != [] ==> Row(frames)[0] == SYNC_BYTE)
    ensures SkipToSync(Row(frames)) == Row(frames)
  {
    if frames != [] {
      RowOfFrames(frames[1..]);
    }
    SkipGap([], Row(frames));
    assert [] + Row(frames) == Row(frames);
  }

  /** A row of packets in one chunk overwrites no view. */
  lemma {:induction false} RowInOneChunk(frames: seq<seq<Byte>>)
    requires frames != [] && forall k :: 0 <= k < |frames| ==> IsFrame(frames[k])
    ensures ChunksOk(|Row(frames)|, [], [Row(frames)])
  {
    var bytes, rest := Row(frames), Row(frames[1..]);
    RowOfFrames(frames);
    RowOfFrames(frames[1..]);
    assert [] + bytes == bytes && bytes[PACKET_SIZE..] == rest;
    ViewsIntactIff(bytes, 0);
    assert [bytes][1..] == [];
    assert ChunksOk(|bytes|, Residue(bytes), []);
  }

  lemma {:induction false} PacketsFit(packets: seq<Data>, mapPid: int, streamPid: int, streamType: int, patCut: nat,
                                      pmtCut: nat, header: PesHeader, es: seq<Byte>)
    requires Pids(mapPid, streamPid, streamType) && WellFormedHeader(header)
    requires |EncodeHeader(header) + es| <= PACKET_SIZE - 4
    requires ThePackets(packets, mapPid, streamPid, streamType, patCut, pmtCut, header, es)
    ensures forall k :: 0 <= k < |packets| ==> FitsPacket(packets[k])
  {
    PatRoundTrip([PatItem(1, 7, mapPid)], CRC);
    MapTableIsShort(streamPid, streamType);
  }

  /** What is required of a multiplex can be met on the wire: for any program, its tables cut anywhere, and any header
      and stream bytes that fit a packet, five stuffed packets received in one chunk deliver the bytes. */
  method OneProgramIsDelivered(ghost mapPid: int, ghost streamPid: int, ghost streamType: int, ghost patCut: nat,
                               ghost pmtCut: nat, ghost header: PesHeader, ghost es: seq<Byte>,
                               ghost packets: seq<Data>, ghost units: seq<Unit>, bytes: seq<Byte>)
    returns (demuxer: Demuxer)
    requires Pids(mapPid, streamPid, streamType) && WellFormedHeader(header)
    requires |EncodeHeader(header) + es| <= PACKET_SIZE - 4
    requires ThePackets(packets, mapPid, streamPid, streamType, patCut, pmtCut, header, es)
    requires AllWellFormed(units) && UnitsData(units) == packets && bytes == Row(EncodeUnits(units))
    ensures demuxer.Valid() && Delivered(demuxer.View(), streamPid, streamType, es)
  {
    OneProgramIsPlanned(packets, mapPid, streamPid, streamType, patCut, pmtCut, header, es);
    demuxer := DemultiplexRow(ThePlan(mapPid, streamPid, streamType), units, bytes, streamPid, header, es);
  }

  /** There are such packets, units and bytes. */
  lemma {:induction false} OneProgramExists(mapPid: int, streamPid: int, streamType: int, header: PesHeader, es: seq<Byte>)
    returns (packets: seq<Data>, units: seq<Unit>)
    requires Pids(mapPid, streamPid, streamType) && WellFormedHeader(header)
    requires |EncodeHeader(header) + es| <= PACKET_SIZE - 4
    ensures ThePackets(packets, mapPid, streamPid, streamType, 1, 1, header, es)
    ensures AllWellFormed(units) && UnitsData(units) == packets
  {
    var pat, pmt := EncodeSection(PatSection(mapPid)), EncodeSection(PmtSection(streamPid, streamType));
    packets := [Data(PAT_PID, true, true, [0] + pat[..1]), Data(PAT_PID, false, true, pat[1..]),
                Data(mapPid, true, true, [0] + pmt[..1]), Data(mapPid, false, true, pmt[1..]),
                Data(streamPid, true, true, EncodeHeader(header) + es)];
    PacketsFit(packets, mapPid, streamPid, streamType, 1, 1, header, es);
    units := StuffedAll(packets);
  }

  method DemultiplexRow(ghost x: Plan, ghost units: seq<Unit>, bytes: seq<Byte>, ghost pid: int,
                        ghost header: PesHeader, ghost es: seq<Byte>) returns (demuxer: Demuxer)
    requires WellFormedPlan(x) && AllWellFormed(units) && Planned(x, UnitsData(units)) && units != []
    requires pid in x.streams && StreamAnnounced(x, UnitsData(units), pid)
    requires CarriesStream(Own(UnitsData(units), pid), [header], [es]) && Concat([es]) == es
    requires bytes == Row(EncodeUnits(units))
    ensures demuxer.Valid() && Delivered(demuxer.View(), pid, x.streams[pid], es)
  {
    UnitsAreFrames(units);
    RowIsWoven(EncodeUnits(units), NoGaps(|units| + 1));
    RowInOneChunk(EncodeUnits(units));
    assert Concat([bytes]) == Concat([]) + bytes;
    demuxer := DemultiplexPlan(x, units, NoGaps(|units| + 1), [], |bytes|, [bytes]);
    DeliveredOne(x, UnitsData(units), demuxer.View(), pid, [header], [es]);
  }

  lemma {:induction false} DeliveredOne(x: Plan, packets: seq<Data>, st: State, pid: int, headers: seq<PesHeader>,
                                        es: seq<seq<Byte>>)
    requires AllDelivered(x, packets, st) && pid in x.streams && StreamAnnounced(x, packets, pid)
    requires CarriesStream(Own(packets, pid), headers, es)
    ensures Delivered(st, pid, x.streams[pid], Concat(es))
  {
  }
}
