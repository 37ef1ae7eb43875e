/**
  What each parser receives over a run, and the main loop from bytes to parsers.
 */
module EndToEnd {
  import opened Bytes
  import opened TsPackets
  import opened Framing
  import opened Packetizers
  import opened PsiSections
  import opened PsiReassembly
  import opened Tables
  import opened PesPackets
  import opened DemuxModel
  import opened Demuxers
  import opened Pumps
  import opened DemuxInvariants

  // ---------------------------------------------------------------- the packets of one PID

  /** The packets for a PID, in order. */
  ghost function Own(packets: seq<Data>, pid: int): seq<Data> {
    if packets == [] then []
    else (if packets[0].pid == pid then [packets[0]] else []) + Own(packets[1..], pid)
  }

  /** What the consumer of a stream is called with for a packet, and for its packets. */
  ghost function Calls(d: Data): seq<seq<Byte>> {
    if PesOk(d.unitStart, d.payload) then EsCalls(d.unitStart, d.payload) else []
  }

  ghost function Received(own: seq<Data>): seq<seq<Byte>> {
    if own == [] then [] else Calls(own[0]) + Received(own[1..])
  }

  /** What section packets add to their parser's buffer: the payload without its pointer field. */
  ghost function Part(d: Data): seq<Byte> {
    if d.unitStart && d.payload == [] then [] else Stripped(d.unitStart, d.payload)
  }

  ghost function Parts(own: seq<Data>): seq<seq<Byte>> {
    if own == [] then [] else [Part(own[0])] + Parts(own[1..])
  }

  /** The payloads carry these pieces of section data, one each. */
  ghost predicate CarryPieces(own: seq<Data>, pieces: seq<seq<Byte>>) {
    && |own| == |pieces|
    && forall k :: 0 <= k < |own| ==> CarriesPiece(own[k].unitStart, own[k].payload, pieces[k])
  }

  /** What is added to the buffer are the pieces carried, at unit starts and in between. */
  lemma {:induction false} PartsArePieces(own: seq<Data>, pieces: seq<seq<Byte>>)
    requires CarryPieces(own, pieces)
    ensures Parts(own) == pieces
  {
    if own != [] {
      StrippedIsPiece(own[0].unitStart, own[0].payload, pieces[0]);
      PartsArePieces(own[1..], pieces[1..]);
    }
  }

  /** The bodies of the callbacks of one section parser. */
  ghost function BodiesOf(callbacks: Callbacks, pid: int): seq<seq<Byte>> {
    if callbacks == [] then []
    else BodiesOf(callbacks[..|callbacks| - 1], pid) +
         (if callbacks[|callbacks| - 1].0 == pid then [callbacks[|callbacks| - 1].1] else [])
  }

  /** A role as it is when it is first registered by a table. */
  ghost predicate IsFresh(role: Role) {
    role == PmtRole([]) || role == PesRole([])
  }

  /** Of what belongs to the PID, only the given bodies are added, and it may be registered. */
  ghost predicate Touched(st: State, st': State, pid: int, bodies: seq<seq<Byte>>) {
    && (pid in st.roles ==> pid in st'.roles && st'.roles[pid] == st.roles[pid])
    && (pid !in st.roles && pid in st'.roles ==> IsFresh(st'.roles[pid]))
    && BodiesOf(st'.callbacks, pid) == BodiesOf(st.callbacks, pid) + bodies
  }

  /** Nothing that belongs to the PID changes, except that it may be registered. */
  ghost predicate Untouched(st: State, st': State, pid: int) {
    Touched(st, st', pid, [])
  }

  lemma {:induction false} TouchedThen(st: State, mid: State, end: State, pid: int, a: seq<seq<Byte>>,
                                       b: seq<seq<Byte>>)
    requires Touched(st, mid, pid, a) && Touched(mid, end, pid, b)
    ensures Touched(st, end, pid, a + b)
  {
    Associate(BodiesOf(st.callbacks, pid), a, b);
  }

  /** Section callbacks of one parser touch no registered role, and only its own bodies. */
  lemma {:induction false} PayloadsTouch(st: State, pid: int, isPat: bool, bodies: seq<seq<Byte>>, x: int)
    requires BodiesOk(bodies)
    ensures Touched(st, OnPayloads(st, pid, isPat, bodies), x, if x == pid then bodies else [])
    decreases |bodies|
  {
    if bodies == [] {
      assert BodiesOf(st.callbacks, x) + [] == BodiesOf(st.callbacks, x);
    } else {
      var front, last := bodies[..|bodies| - 1], bodies[|bodies| - 1];
      PayloadsTouch(st, pid, isPat, front, x);
      var mid := OnPayloads(st, pid, isPat, front);
      PayloadTouches(mid, pid, isPat, last, x);
      if x == pid {
        TouchedThen(st, mid, OnPayload(mid, pid, isPat, last), x, front, [last]);
        assert bodies == front + [last];
      } else {
        TouchedThen(st, mid, OnPayload(mid, pid, isPat, last), x, [], []);
      }
    }
  }

  lemma {:induction false} PayloadTouches(st: State, pid: int, isPat: bool, body: seq<Byte>, x: int)
    requires |body| >= CRC_LENGTH
    ensures Touched(st, OnPayload(st, pid, isPat, body), x, if x == pid then [body] else [])
  {
    var callbacks := st.callbacks + [(pid, body)];
    assert callbacks[..|callbacks| - 1] == st.callbacks;
  }

  lemma {:induction false} OtherPidsUntouched(st: State, d: Data, x: int)
    requires StepOk(st, d) && x != d.pid
    ensures Untouched(st, Step(st, d), x)
  {
    assert BodiesOf(st.callbacks, x) + [] == BodiesOf(st.callbacks, x);
    if d.pid in st.roles && !st.roles[d.pid].PesRole? {
      var all := st.roles[d.pid].kept + Stripped(d.unitStart, d.payload);
      var role := if st.roles[d.pid].PatRole? then PatRole(Rest(all)) else PmtRole(Rest(all));
      PayloadsTouch(st.(roles := st.roles[d.pid := role]), d.pid, role.PatRole?, Sections(all), x);
    }
  }

  /** Without packets of its own a PID is at most registered. */
  lemma {:induction false} NoPacketsNoChange(st: State, packets: seq<Data>, x: int)
    requires RunOk(st, packets) && Own(packets, x) == []
    ensures Untouched(st, Run(st, packets), x)
    decreases |packets|
  {
    if packets == [] {
      assert BodiesOf(st.callbacks, x) + [] == BodiesOf(st.callbacks, x);
    } else {
      OtherPidsUntouched(st, packets[0], x);
      assert Own(packets[1..], x) == [];
      NoPacketsNoChange(Step(st, packets[0]), packets[1..], x);
      TouchedThen(st, Step(st, packets[0]), Run(st, packets), x, [], []);
    }
  }

  /** A stream's output depends only on its own packets, from its registration on. */
  lemma {:induction false} OutputOfStream(st: State, packets: seq<Data>, x: int)
    requires RunOk(st, packets) && x in st.roles && st.roles[x].PesRole?
    ensures var end := Run(st, packets);
            x in end.roles && end.roles[x] == PesRole(st.roles[x].received + Received(Own(packets, x)))
    decreases |packets|
  {
    if packets != [] {
      var d, rest := packets[0], packets[1..];
      var st' := Step(st, d);
      if d.pid != x {
        OtherPidsUntouched(st, d, x);
        assert Own(packets, x) == Own(rest, x);
      } else {
        Associate(st.roles[x].received, EsCalls(d.unitStart, d.payload), Received(Own(rest, x)));
        assert Own(packets, x) == [d] + Own(rest, x);
        assert Own(packets, x)[1..] == Own(rest, x);
      }
      OutputOfStream(st', rest, x);
    } else {
      assert st.roles[x].received + [] == st.roles[x].received;
    }
  }

  /** A section parser's callbacks depend only on its own packets, from its registration on. */
  lemma {:induction false} CallbacksOfParser(st: State, packets: seq<Data>, x: int)
    requires RunOk(st, packets) && x in st.roles && !st.roles[x].PesRole?
    ensures BodiesOf(Run(st, packets).callbacks, x) ==
            BodiesOf(st.callbacks, x) + SectionsFrom(st.roles[x].kept, Parts(Own(packets, x)))
    decreases |packets|
  {
    if packets != [] {
      var d, rest := packets[0], packets[1..];
      var st' := Step(st, d);
      if d.pid != x {
        OtherPidsUntouched(st, d, x);
        assert Own(packets, x) == Own(rest, x);
        assert BodiesOf(st.callbacks, x) + [] == BodiesOf(st.callbacks, x);
      } else {
        OwnSectionPacket(st, d);
        var part := Stripped(d.unitStart, d.payload);
        assert Own(packets, x) == [d] + Own(rest, x);
        assert Own(packets, x)[1..] == Own(rest, x);
        assert Parts(Own(packets, x)) == [part] + Parts(Own(rest, x));
        assert Parts(Own(packets, x))[1..] == Parts(Own(rest, x));
        Associate(BodiesOf(st.callbacks, x), Sections(st.roles[x].kept + part),
                  SectionsFrom(st'.roles[x].kept, Parts(Own(rest, x))));
      }
      CallbacksOfParser(st', rest, x);
    } else {
      assert BodiesOf(st.callbacks, x) + [] == BodiesOf(st.callbacks, x);
    }
  }

  lemma {:induction false} OwnSectionPacket(st: State, d: Data)
    requires StepOk(st, d) && d.pid in st.roles && !st.roles[d.pid].PesRole?
    ensures var all := st.roles[d.pid].kept + Stripped(d.unitStart, d.payload);
            var st' := Step(st, d);
            && d.pid in st'.roles && !st'.roles[d.pid].PesRole? && st'.roles[d.pid].kept == Rest(all)
            && BodiesOf(st'.callbacks, d.pid) == BodiesOf(st.callbacks, d.pid) + Sections(all)
  {
    var all := st.roles[d.pid].kept + Stripped(d.unitStart, d.payload);
    var role := if st.roles[d.pid].PatRole? then PatRole(Rest(all)) else PmtRole(Rest(all));
    PayloadsTouch(st.(roles := st.roles[d.pid := role]), d.pid, role.PatRole?, Sections(all), d.pid);
  }

  /** Sections spread over any number of packets, cut anywhere but in padding, all reach the callback of a fresh parser,
      whatever packets of other PIDs come between them. */
  lemma {:induction false} SpreadSectionsArrive(st: State, packets: seq<Data>, x: int, pieces: seq<seq<Byte>>,
                                                sections: seq<Section>)
    requires RunOk(st, packets) && x in st.roles && !st.roles[x].PesRole? && st.roles[x].kept == []
    requires CarryPieces(Own(packets, x), pieces) && NoCutInPadding([], pieces)
    requires forall k :: 0 <= k < |sections| ==> WellFormedSection(sections[k])
    requires Concat(pieces) == EncodeSections(sections)
    ensures BodiesOf(Run(st, packets).callbacks, x) == BodiesOf(st.callbacks, x) + Bodies(sections)
  {
    CallbacksOfParser(st, packets, x);
    PartsArePieces(Own(packets, x), pieces);
    assert !HasSection([]);
    Reassembly([], pieces);
    assert [] + Concat(pieces) == EncodeSections(sections);
    EncodedSectionsComeBack(sections);
    assert [] + SectionsFrom([], pieces) == SectionsFrom([], pieces);
  }

  // ---------------------------------------------------------------- packets on the wire

  ghost function UnitsData(units: seq<Unit>): seq<Data> {
    if units == [] then []
    else [Data(units[0].pid, units[0].payloadUnitStart, true, units[0].payload)] + UnitsData(units[1..])
  }

  ghost predicate AllWellFormed(units: seq<Unit>) {
    forall k :: 0 <= k < |units| ==> WellFormedUnit(units[k])
  }

  ghost function EncodeUnits(units: seq<Unit>): (frames: seq<seq<Byte>>)
    requires AllWellFormed(units)
    ensures |frames| == |units|
  {
    if units == [] then [] else [EncodeUnit(units[0])] + EncodeUnits(units[1..])
  }

  lemma {:induction false} EncodedUnitsComeBack(units: seq<Unit>)
    requires AllWellFormed(units)
    ensures forall k :: 0 <= k < |units| ==> |EncodeUnits(units)[k]| == PACKET_SIZE
    ensures AllDataOf(EncodeUnits(units)) == UnitsData(units)
  {
    if units != [] {
      DecodeEncoded(units[0]);
      EncodedUnitsComeBack(units[1..]);
      assert EncodeUnits(units)[1..] == EncodeUnits(units[1..]);
    }
  }

  /** Encoded packets with any bytes but sync bytes between them are seen as those packets. */
  lemma {:induction false} WovenUnitsComeBack(units: seq<Unit>, gaps: seq<seq<Byte>>, rest: seq<Byte>)
    requires AllWellFormed(units) && WellWoven(gaps, EncodeUnits(units), rest)
    ensures PacketsOf(Weave(gaps, EncodeUnits(units), rest)) == UnitsData(units)
  {
    WovenPacketsAreFramed(gaps, EncodeUnits(units), rest);
    EncodedUnitsComeBack(units);
  }

  // ---------------------------------------------------------------- delivery

  /** Each packet carries the given elementary stream bytes, behind a header where a unit starts. */
  ghost predicate CarriesStream(own: seq<Data>, headers: seq<PesHeader>, es: seq<seq<Byte>>) {
    && |own| == |headers| == |es|
    && forall k :: 0 <= k < |own| ==>
         if own[k].unitStart then WellFormedHeader(headers[k]) && own[k].payload == EncodeHeader(headers[k]) + es[k]
         else own[k].payload == es[k]
  }

  lemma {:induction false} StreamBytesArrive(own: seq<Data>, headers: seq<PesHeader>, es: seq<seq<Byte>>)
    requires CarriesStream(own, headers, es)
    ensures Concat(Received(own)) == Concat(es)
  {
    if own != [] {
      StreamBytesArrive(own[1..], headers[1..], es[1..]);
      ConcatFirst(es);
      if own[0].unitStart {
        HeaderRoundTrip(headers[0], es[0]);
      }
      var calls := EsCalls(own[0].unitStart, own[0].payload);
      if calls == [] {
        assert Received(own) == Received(own[1..]);
        assert [] + Concat(es[1..]) == Concat(es[1..]);
      } else {
        assert Received(own) == [es[0]] + Received(own[1..]);
        ConcatFirst(Received(own));
        assert Received(own)[1..] == Received(own[1..]);
      }
    }
  }

  /** The program's main loop on a fresh demultiplexer: the end state is that of the packets in all the bytes,
      wherever they were cut into chunks. */
  method Demultiplex(capacity: nat, chunks: seq<seq<Byte>>) returns (demuxer: Demuxer)
    requires ChunksOk(capacity, [], chunks) && RunOk(Initial(), PacketsOf(Concat(chunks)))
    ensures demuxer.Valid() && demuxer.View() == Run(Initial(), PacketsOf(Concat(chunks)))
  {
    var source := new Packetizer(capacity);
    demuxer := new Demuxer();
    assert [] + Concat(chunks) == Concat(chunks);
    Pump(demuxer, source, chunks);
  }
}
