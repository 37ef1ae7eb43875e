/**
  The demultiplexer: parser objects in a map from PIDs, dispatch of packets, and the table callbacks.
 */
module Demuxers {
  import opened Bytes
  import opened TsPackets
  import opened Framing
  import opened Packetizers
  import opened PsiSections
  import opened Tables
  import opened PesPackets
  import opened DemuxModel

  datatype Stream = PatStream(psi: PsiParser) | PmtStream(psi: PsiParser) | PesStream(pes: PesParser) {
    ghost function CurrentRole(): Role
      reads if PesStream? then {} else {psi}, if PesStream? then {pes} else {}
    {
      match this
      case PatStream(p) => PatRole(p.sectionData)
      case PmtStream(p) => PmtRole(p.sectionData)
      case PesStream(p) => PesRole(p.received)
    }
  }

  ghost predicate Apart(s: Stream, t: Stream) {
    && (!s.PesStream? && !t.PesStream? ==> s.psi != t.psi)
    && (s.PesStream? && t.PesStream? ==> s.pes != t.pes)
  }

  class Demuxer {
    var packetStreams: map<int, Stream>
    var created: seq<(int, int)>       // calls of the consumer factory
    ghost var callbacks: seq<(int, seq<Byte>)>
    ghost var roles: map<int, Role>    // the parser states as values
    ghost var psis: set<PsiParser>     // the parser objects
    ghost var pess: set<PesParser>

    /** The roles show the parsers, and no parser serves two PIDs. */
    ghost predicate Valid()
      reads `packetStreams, `roles, `psis, `pess, psis, pess
    {
      && roles.Keys == packetStreams.Keys
      && (forall p :: p in packetStreams ==> Owned(packetStreams[p]) && packetStreams[p].CurrentRole() == roles[p])
      && (forall p, q :: p in packetStreams && q in packetStreams && p != q ==>
            Apart(packetStreams[p], packetStreams[q]))
    }

    ghost predicate Owned(s: Stream)
      reads `psis, `pess
    {
      if s.PesStream? then s.pes in pess else s.psi in psis
    }

    ghost function View(): State
      reads `roles, `created, `callbacks
    {
      State(roles, created, callbacks)
    }

    constructor ()
      ensures Valid() && View() == Initial() && fresh(psis) && fresh(pess)
      ensures packetStreams.Keys == {0} && packetStreams[0].PatStream? && created == []
    {
      var parser := new PsiParser();
      packetStreams := map[PAT_PID := PatStream(parser)];
      created, callbacks := [], [];
      roles, psis, pess := Initial().roles, {parser}, {};
    }

    /** Puts a new section parser into the map. */
    method RegisterTable(pid: int)
      requires Valid() && pid !in packetStreams
      modifies `packetStreams, `roles, `psis
      ensures Valid() && roles == old(roles)[pid := PmtRole([])]
      ensures fresh(psis - old(psis))
    {
      var parser := new PsiParser();
      packetStreams := packetStreams[pid := PmtStream(parser)];
      roles, psis := roles[pid := PmtRole([])], psis + {parser};
    }

    /** Creates a consumer and puts a new stream parser into the map. */
    method RegisterStream(streamType: int, pid: int)
      requires Valid() && pid !in packetStreams
      modifies `packetStreams, `roles, `pess, `created
      ensures Valid() && roles == old(roles)[pid := PesRole([])]
      ensures created == old(created) + [(streamType, pid)]
      ensures fresh(pess - old(pess))
    {
      created := created + [(streamType, pid)];
      var parser := new PesParser();
      packetStreams := packetStreams[pid := PesStream(parser)];
      roles, pess := roles[pid := PesRole([])], pess + {parser};
    }

    /** Registers a section parser for each PID of the table that is not registered yet. */
    method OnPat(update: map<int, int>)
      requires Valid()
      modifies `packetStreams, `roles, `psis, `pess
      ensures Valid() && View() == DemuxModel.OnPat(old(View()), update)
      ensures fresh(psis - old(psis)) && fresh(pess - old(pess))
    {
      var rest := update.Keys;
      ghost var start := roles;
      while rest != {}
        invariant rest <= update.Keys && Valid()
        invariant fresh(psis - old(psis)) && fresh(pess - old(pess))
        invariant roles == Registered(start, update.Keys - rest, PmtRole([]))
        decreases rest
      {
        MinimumExists(rest);
        var pid :| IsMinimum(rest, pid);
        RegisterOne(start, update.Keys, rest, pid, PmtRole([]));
        if pid !in packetStreams {
          RegisterTable(pid);
        }
        rest := rest - {pid};
      }
      assert update.Keys - rest == update.Keys;
    }

    /** Creates a consumer and registers a stream parser for each PID of the table that is not registered yet. */
    method OnPmt(update: map<int, int>)
      requires Valid()
      modifies `packetStreams, `roles, `psis, `pess, `created
      ensures Valid() && View() == DemuxModel.OnPmt(old(View()), update)
      ensures fresh(psis - old(psis)) && fresh(pess - old(pess))
    {
      var rest := update.Keys;
      ghost var start, known := roles, roles.Keys;
      ghost var todo := Creations(rest - known, update);
      while rest != {}
        invariant rest <= update.Keys && Valid()
        invariant fresh(psis - old(psis)) && fresh(pess - old(pess))
        invariant todo == Creations(rest - known, update)
        invariant created + todo == old(created) + Creations(update.Keys - known, update)
        invariant roles == Registered(start, update.Keys - rest, PesRole([]))
        decreases rest
      {
        MinimumExists(rest);
        var pid :| IsMinimum(rest, pid);
        RegisterOne(start, update.Keys, rest, pid, PesRole([]));
        CreationRound(created, rest, known, update, pid);
        if pid !in packetStreams {
          RegisterStream(update[pid], pid);
        }
        rest := rest - {pid};
        todo := Creations(rest - known, update);
      }
      assert update.Keys - rest == update.Keys && rest - known == {};
      assert created + [] == created;
    }

    /** A callback with a section body. */
    method OnPayload(pid: int, isPat: bool, body: seq<Byte>)
      requires Valid() && |body| >= CRC_LENGTH
      modifies this
      ensures Valid() && View() == DemuxModel.OnPayload(old(View()), pid, isPat, body)
      ensures fresh(psis - old(psis)) && fresh(pess - old(pess))
    {
      callbacks := callbacks + [(pid, body)];
      if isPat {
        var pat := ParsePatPayload(body);
        OnPat(pat);
      } else {
        var pmt := ParsePmtPayload(body);
        OnPmt(pmt);
      }
    }

    /** The callbacks for all section bodies that a parser delivered. */
    method Deliver(pid: int, isPat: bool, bodies: seq<seq<Byte>>)
      requires Valid() && BodiesOk(bodies)
      modifies this
      ensures Valid() && View() == OnPayloads(old(View()), pid, isPat, bodies)
      ensures fresh(psis - old(psis)) && fresh(pess - old(pess))
    {
      ghost var start := View();
      for i := 0 to |bodies|
        invariant Valid() && View() == OnPayloads(start, pid, isPat, bodies[..i])
        invariant fresh(psis - old(psis)) && fresh(pess - old(pess))
      {
        PayloadsStep(start, pid, isPat, bodies, i);
        OnPayload(pid, isPat, bodies[i]);
      }
      assert bodies[..|bodies|] == bodies;
    }

    /** Passes a packet to a registered section parser; the callbacks are still to be made. */
    method PutSections(packet: TsPacket) returns (bodies: seq<seq<Byte>>)
      requires Valid() && packet.pid in packetStreams && !packetStreams[packet.pid].PesStream?
      requires packet.payload.InBounds() && (packet.payloadUnitStart ==> packet.payload.size > 0)
      requires Clean(packetStreams[packet.pid].psi.sectionData +
                     Stripped(packet.payloadUnitStart, packet.payload.Bytes()))
      modifies `roles, psis
      ensures Valid()
      ensures var all := old(packetStreams[packet.pid].psi.sectionData) +
                         Stripped(packet.payloadUnitStart, old(packet.payload.Bytes()));
              var role := if packetStreams[packet.pid].PatStream? then PatRole(Rest(all)) else PmtRole(Rest(all));
              bodies == Sections(all) && roles == old(roles)[packet.pid := role]
    {
      var stream := packetStreams[packet.pid];
      bodies := stream.psi.Put(packet, Stripped(packet.payloadUnitStart, packet.payload.Bytes()));
      roles := roles[packet.pid := stream.CurrentRole()];
    }

    /** Passes a packet to a registered stream parser. */
    method PutStream(packet: TsPacket)
      requires Valid() && packet.pid in packetStreams && packetStreams[packet.pid].PesStream?
      requires packet.payload.InBounds() && PesOk(packet.payloadUnitStart, packet.payload.Bytes())
      modifies `roles, pess
      ensures Valid()
      ensures roles == old(roles)[packet.pid := PesRole(old(packetStreams[packet.pid].pes.received) +
                                                       EsCalls(packet.payloadUnitStart, old(packet.payload.Bytes())))]
    {
      var stream := packetStreams[packet.pid];
      stream.pes.Put(packet);
      roles := roles[packet.pid := stream.CurrentRole()];
    }

    /** Passes a packet to the parser of its PID, if there is one. */
    method Dispatch(packet: TsPacket, ghost d: Data)
      requires Valid() && StepOk(View(), d)
      requires ShowsData(packet, d)
      modifies this, psis, pess
      ensures Valid() && View() == Step(old(View()), d)
      ensures fresh(psis - old(psis)) && fresh(pess - old(pess))
    {
      if packet.pid in packetStreams {
        if packetStreams[packet.pid].PesStream? {
          PutStream(packet);
        } else {
          var isPat := packetStreams[packet.pid].PatStream?;
          var bodies := PutSections(packet);
          Deliver(packet.pid, isPat, bodies);
        }
      }
    }

    /** Takes one packet from the source and passes it on: the rest leads where all of it led. */
    method ConsumeOne(source: Packetizer, ghost end: State, ghost left: seq<Byte>)
      requires Valid() && source.Settled() && !source.IsDepleted() && ViewsIntact(source.buffered, source.cursor)
      requires Leads(View(), source.buffered, end, left)
      modifies this, psis, pess, source, source.dataStorage
      ensures Valid() && source.Settled() && ViewsIntact(source.buffered, source.cursor)
      ensures fresh(psis - old(psis)) && fresh(pess - old(pess))
      ensures Leads(View(), source.buffered, end, left) && |source.buffered| < old(|source.buffered|)
    {
      ghost var contents, st := source.buffered, View();
      ghost var d := DataOf(contents[..PACKET_SIZE]);
      NextPacket(st, contents, end, left);
      var packet := TakeBeside(source);
      DispatchBeside(packet, d, source);
    }

    /** Taking a packet leaves the parsers alone. */
    method TakeBeside(source: Packetizer) returns (packet: TsPacket)
      requires Valid() && source.Settled() && !source.IsDepleted() && ViewsIntact(source.buffered, source.cursor)
      modifies source, source.dataStorage
      ensures Valid() && View() == old(View())
      ensures source.Settled() && ViewsIntact(source.buffered, source.cursor)
      ensures source.buffered == SkipToSync(old(source.buffered)[PACKET_SIZE..])
      ensures ShowsData(packet, DataOf(old(source.buffered)[..PACKET_SIZE]))
    {
      packet := TakeIntact(source);
    }

    /** Dispatch leaves the source alone. */
    method DispatchBeside(packet: TsPacket, ghost d: Data, ghost source: Packetizer)
      requires Valid() && StepOk(View(), d) && ShowsData(packet, d) && source.Settled()
      modifies this, psis, pess
      ensures Valid() && View() == Step(old(View()), d)
      ensures fresh(psis - old(psis)) && fresh(pess - old(pess))
      ensures source.Settled() && source.buffered == old(source.buffered) && source.cursor == old(source.cursor)
    {
      ghost var cursor := source.cursor;
      Dispatch(packet, d);
      assert source.cursor == cursor;
    }

    /** Takes packets from the source until it is depleted. */
    method Consume(source: Packetizer)
      requires Valid() && source.Settled() && ViewsIntact(source.buffered, source.cursor)
      requires RunOk(View(), PacketsOf(source.buffered))
      modifies this, psis, pess, source, source.dataStorage
      ensures Valid() && View() == Run(old(View()), PacketsOf(old(source.buffered)))
      ensures fresh(psis - old(psis)) && fresh(pess - old(pess))
      ensures source.Settled() && source.IsDepleted() && source.buffered == Residue(old(source.buffered))
    {
      ghost var end, left := Run(View(), PacketsOf(source.buffered)), Residue(source.buffered);
      while !source.IsDepleted()
        invariant Valid() && source.Settled() && ViewsIntact(source.buffered, source.cursor)
        invariant fresh(psis - old(psis)) && fresh(pess - old(pess))
        invariant Leads(View(), source.buffered, end, left)
        decreases |source.buffered|
      {
        ConsumeOne(source, end, left);
      }
      NoPacket(View(), source.buffered, end, left);
    }
  }

  /** The packet shows the data: its view reads the payload if that fits. */
  ghost predicate ShowsData(packet: TsPacket, d: Data)
    reads packet.payload.data
  {
    && d.pid == packet.pid && d.unitStart == packet.payloadUnitStart
    && (d.fits ==> packet.payload.InBounds() && packet.payload.Bytes() == d.payload)
  }

  /** Takes a packet whose view stays intact. */
  method TakeIntact(source: Packetizer) returns (packet: TsPacket)
    requires source.Settled() && !source.IsDepleted() && ViewsIntact(source.buffered, source.cursor)
    modifies source, source.dataStorage
    ensures source.Settled() && ViewsIntact(source.buffered, source.cursor)
    ensures source.buffered == SkipToSync(old(source.buffered)[PACKET_SIZE..])
    ensures ShowsData(packet, DataOf(old(source.buffered)[..PACKET_SIZE]))
  {
    ghost var contents, cursor := source.buffered, source.cursor;
    packet := source.Get();
    ViewsStayIntact(contents, cursor, source.buffered, source.cursor);
    if AdaptationFits(contents[..PACKET_SIZE]) {
      IntactViewShowsPayload(contents, cursor);
    }
  }

  /** The packets in some bytes. */
  ghost function PacketsOf(s: seq<Byte>): seq<Data> {
    FramesAreFrames(s);
    AllDataOf(Frames(s))
  }

  /** Running the packets in s from st ends in the given state and leaves the given bytes. */
  ghost predicate Leads(st: State, s: seq<Byte>, end: State, left: seq<Byte>) {
    RunOk(st, PacketsOf(s)) && Run(st, PacketsOf(s)) == end && Residue(s) == left
  }

  lemma {:induction false} NextPacket(st: State, s: seq<Byte>, end: State, left: seq<Byte>)
    requires |s| >= PACKET_SIZE && s[0] == SYNC_BYTE && Leads(st, s, end, left)
    ensures StepOk(st, DataOf(s[..PACKET_SIZE]))
    ensures Leads(Step(st, DataOf(s[..PACKET_SIZE])), SkipToSync(s[PACKET_SIZE..]), end, left)
  {
    var more := s[PACKET_SIZE..];
    var next := SkipToSync(more);
    FrameStep(s, [], s);
    var gap := SkipSplitsGap(more);
    GapDoesNotMatter(gap, next);
    assert PacketsOf(s) == [DataOf(s[..PACKET_SIZE])] + PacketsOf(next);
    RunFirst(st, DataOf(s[..PACKET_SIZE]), PacketsOf(next));
  }

  lemma {:induction false} NoPacket(st: State, s: seq<Byte>, end: State, left: seq<Byte>)
    requires |s| < PACKET_SIZE && (s == [] || s[0] == SYNC_BYTE) && Leads(st, s, end, left)
    ensures st == end && s == left
  {
    FrameStep(s, [], s);
  }

  /** Visiting the least PID makes the next factory call, or none when the PID is known. */
  lemma {:induction false} CreationRound(done: seq<(int, int)>, rest: set<int>, known: set<int>, pmt: map<int, int>,
                                         pid: int)
    requires rest <= pmt.Keys && IsMinimum(rest, pid)
    ensures pid in known ==> Creations(rest - {pid} - known, pmt) == Creations(rest - known, pmt)
    ensures pid !in known ==> done + Creations(rest - known, pmt) ==
                              (done + [(pmt[pid], pid)]) + Creations(rest - {pid} - known, pmt)
  {
    if pid in known {
      assert rest - {pid} - known == rest - known;
    } else {
      assert rest - {pid} - known == rest - known - {pid};
      CreationsStep(rest - known, pmt, pid);
      Regroup(done, (pmt[pid], pid), Creations(rest - {pid} - known, pmt));
    }
  }

  lemma {:induction false} RegisterOne(before: map<int, Role>, all: set<int>, rest: set<int>, pid: int, role: Role)
    requires rest <= all && pid in rest
    ensures var now, next := Registered(before, all - rest, role), Registered(before, all - (rest - {pid}), role);
            next == if pid in now then now else now[pid := role]
  {
    assert all - (rest - {pid}) == (all - rest) + {pid};
  }

  lemma {:induction false} PayloadsStep(st: State, pid: int, isPat: bool, bodies: seq<seq<Byte>>, i: nat)
    requires BodiesOk(bodies) && i < |bodies|
    ensures OnPayloads(st, pid, isPat, bodies[..i + 1])
         == OnPayload(OnPayloads(st, pid, isPat, bodies[..i]), pid, isPat, bodies[i])
  {
    assert bodies[..i + 1][..i] == bodies[..i];
  }
}
