/**
  Whole multiplexes: if each PID carries what a plan says, and nothing before it is announced, then no parser is
  ever asked for what it cannot do, and every announced stream reaches its consumer.
 */
module Multiplex {
  import opened Bytes
  import opened TsPackets
  import opened Framing
  import opened PsiSections
  import opened PsiReassembly
  import opened Tables
  import opened PesPackets
  import opened DemuxModel
  import opened Demuxers
  import opened Pumps
  import opened DemuxInvariants
  import opened EndToEnd

  // ---------------------------------------------------------------- plans

  /** The PIDs of tables with the sections they carry, and the PIDs of elementary streams with their types. */
  datatype Plan = Plan(tables: map<int, seq<Section>>, streams: map<int, int>)

  /** The section body is an encoded association table all of whose PIDs are tables. */
  ghost predicate NamesTables(x: Plan, body: seq<Byte>) {
    exists items, crc :: IsPatOf(x, body, items, crc)
  }

  ghost predicate IsPatOf(x: Plan, body: seq<Byte>, items: seq<PatItem>, crc: seq<Byte>) {
    && |crc| == CRC_LENGTH
    && (forall k :: 0 <= k < |items| ==> WellFormedPatItem(items[k]) && items[k].pid in x.tables)
    && body == EncodePat(items, crc)
  }

  /** The parts of a map table. */
  datatype Pmt = Pmt(clockPid: seq<Byte>, reserved: int, programInfo: seq<Byte>, items: seq<PmtItem>, crc: seq<Byte>)

  ghost predicate WellFormedPmt(t: Pmt) {
    && |t.clockPid| == 2 && 0 <= t.reserved < 16 && |t.programInfo| < 4096 && |t.crc| == CRC_LENGTH
    && forall k :: 0 <= k < |t.items| ==> WellFormedPmtItem(t.items[k])
  }

  /** The section body is an encoded map table that lists streams with their types. */
  ghost predicate NamesStreams(x: Plan, body: seq<Byte>) {
    exists t :: IsPmtOf(x, body, t)
  }

  ghost predicate IsPmtOf(x: Plan, body: seq<Byte>, t: Pmt) {
    && WellFormedPmt(t)
    && (forall k :: 0 <= k < |t.items| ==>
          t.items[k].pid in x.streams && x.streams[t.items[k].pid] == t.items[k].streamType)
    && body == EncodePmt(t.clockPid, t.reserved, t.programInfo, t.items, t.crc)
  }

  ghost predicate TableIsSound(x: Plan, pid: int)
    requires pid in x.tables
  {
    && (forall k :: 0 <= k < |x.tables[pid]| ==> WellFormedSection(x.tables[pid][k]))
    && forall body :: body in Bodies(x.tables[pid]) ==>
         if pid == PAT_PID then NamesTables(x, body) else NamesStreams(x, body)
  }

  ghost predicate WellFormedPlan(x: Plan) {
    && PAT_PID in x.tables && x.tables.Keys !! x.streams.Keys
    && forall pid :: pid in x.tables ==> TableIsSound(x, pid)
  }

  // ---------------------------------------------------------------- packets according to a plan

  /** The section bytes of a PID so far, and the bodies of the sections complete by now. */
  ghost function Carried(done: seq<Data>, pid: int): seq<Byte> {
    Concat(Parts(Own(done, pid)))
  }

  ghost function Seen(done: seq<Data>, pid: int): seq<seq<Byte>> {
    Sections(Carried(done, pid))
  }

  /** What a section of a table names. */
  ghost function NamedBy(isPat: bool, body: seq<Byte>): map<int, int> {
    if isPat then PatOf(body) else PmtOf(body)
  }

  ghost predicate Named(isPat: bool, bodies: seq<seq<Byte>>, pid: int) {
    exists k :: 0 <= k < |bodies| && pid in NamedBy(isPat, bodies[k])
  }

  /** A complete association section has named the PID. */
  ghost predicate TableAnnounced(done: seq<Data>, pid: int) {
    pid == PAT_PID || Named(true, Seen(done, PAT_PID), pid)
  }

  /** A complete map section of some table has given the PID. */
  ghost predicate StreamAnnounced(x: Plan, done: seq<Data>, pid: int) {
    exists m :: m in x.tables && m != PAT_PID && Named(false, Seen(done, m), pid)
  }

  /** The packet carries the next piece of the encoded sections, cut anywhere but in padding. */
  ghost predicate ContinuesTable(sections: seq<Section>, carried: seq<Byte>, d: Data, piece: seq<Byte>)
    requires forall k :: 0 <= k < |sections| ==> WellFormedSection(sections[k])
  {
    && CarriesPiece(d.unitStart, d.payload, piece)
    && carried + piece <= EncodeSections(sections)
    && !CutInPadding(carried, piece)
  }

  /** The next packet continues what the plan says; packets of other PIDs are free. */
  ghost predicate Continues(x: Plan, done: seq<Data>, d: Data)
    requires WellFormedPlan(x)
  {
    && (d.pid in x.tables ==>
          && TableIsSound(x, d.pid)
          && TableAnnounced(done, d.pid)
          && d.fits && exists piece :: ContinuesTable(x.tables[d.pid], Carried(done, d.pid), d, piece))
    && (d.pid in x.streams ==> StreamAnnounced(x, done, d.pid) && d.fits && PesOk(d.unitStart, d.payload))
  }

  ghost predicate Planned(x: Plan, packets: seq<Data>)
    requires WellFormedPlan(x)
  {
    forall k :: 0 <= k < |packets| ==> Continues(x, packets[..k], packets[k])
  }

  // ---------------------------------------------------------------- what a plan's tables name

  lemma {:induction false} PatContentsAre(items: seq<PatItem>, k: nat)
    requires k < |items|
    ensures |PatContents(items)| == |items| && PatContents(items)[k].0 == items[k].pid
  {
    if |items| > 1 {
      PatContentsAre(items[1..], if k > 0 then k - 1 else 0);
    }
  }

  lemma {:induction false} PmtContentsAre(items: seq<PmtItem>, k: nat)
    requires k < |items|
    ensures |PmtContents(items)| == |items| && PmtContents(items)[k] == (items[k].pid, items[k].streamType)
  {
    if |items| > 1 {
      PmtContentsAre(items[1..], if k > 0 then k - 1 else 0);
    }
  }

  lemma {:induction false} PatNames(x: Plan, body: seq<Byte>, pid: int)
    requires NamesTables(x, body)
    ensures |body| >= CRC_LENGTH && (pid in PatOf(body) ==> pid in x.tables)
  {
    var items, crc :| IsPatOf(x, body, items, crc);
    PatRoundTrip(items, crc);
    if pid in PatOf(body) {
      FirstWinsMeaning(PatContents(items), pid);
      var k :| 0 <= k < |PatContents(items)| && PatContents(items)[k].0 == pid;
      if items != [] {
        PatContentsAre(items, 0);
        PatContentsAre(items, k);
      }
    }
  }

  lemma {:induction false} PmtNames(x: Plan, body: seq<Byte>, pid: int)
    requires NamesStreams(x, body)
    ensures |body| >= CRC_LENGTH
    ensures pid in PmtOf(body) ==> pid in x.streams && PmtOf(body)[pid] == x.streams[pid]
  {
    var t :| IsPmtOf(x, body, t);
    PmtRoundTrip(t.clockPid, t.reserved, t.programInfo, t.items, t.crc);
    if pid in PmtOf(body) {
      FirstWinsMeaning(PmtContents(t.items), pid);
      var k :| 0 <= k < |PmtContents(t.items)| && PmtContents(t.items)[k] == (pid, PmtOf(body)[pid]);
      if t.items != [] {
        PmtContentsAre(t.items, 0);
        PmtContentsAre(t.items, k);
      }
    }
  }

  // ---------------------------------------------------------------- one more packet

  lemma {:induction false} OwnSnoc(done: seq<Data>, d: Data, pid: int)
    ensures Own(done + [d], pid) == Own(done, pid) + (if d.pid == pid then [d] else [])
  {
    var all := done + [d];
    if done == [] {
      assert all == [d] && all[1..] == [];
    } else {
      assert all[0] == done[0] && all[1..] == done[1..] + [d];
      OwnSnoc(done[1..], d, pid);
      Associate(if done[0].pid == pid then [done[0]] else [], Own(done[1..], pid), if d.pid == pid then [d] else []);
    }
  }

  lemma {:induction false} PartsSnoc(own: seq<Data>, d: Data)
    ensures Parts(own + [d]) == Parts(own) + [Part(d)]
  {
    var all := own + [d];
    if own == [] {
      assert all == [d] && all[1..] == [];
    } else {
      assert all[0] == own[0] && all[1..] == own[1..] + [d];
      PartsSnoc(own[1..], d);
      Associate([Part(own[0])], Parts(own[1..]), [Part(d)]);
    }
  }

  lemma {:induction false} ReceivedSnoc(own: seq<Data>, d: Data)
    ensures Received(own + [d]) == Received(own) + Calls(d)
  {
    var all := own + [d];
    if own == [] {
      assert all == [d] && all[1..] == [];
    } else {
      assert all[0] == own[0] && all[1..] == own[1..] + [d];
      ReceivedSnoc(own[1..], d);
      Associate(Calls(own[0]), Received(own[1..]), Calls(d));
    }
  }

  lemma {:induction false} CarriedSnoc(done: seq<Data>, d: Data, pid: int)
    ensures Carried(done + [d], pid) == if d.pid == pid then Carried(done, pid) + Part(d) else Carried(done, pid)
  {
    OwnSnoc(done, d, pid);
    if d.pid == pid {
      PartsSnoc(Own(done, pid), d);
      var parts := Parts(Own(done, pid)) + [Part(d)];
      assert parts[..|parts| - 1] == Parts(Own(done, pid));
    } else {
      assert Own(done, pid) + [] == Own(done, pid);
    }
  }

  // ---------------------------------------------------------------- tracking a run

  /** A parser's state is what its PID's packets make it. */
  ghost predicate RoleTracks(x: Plan, done: seq<Data>, pid: int, role: Role) {
    match role
    case PatRole(kept) => pid == PAT_PID && pid in x.tables && kept == Rest(Carried(done, pid))
    case PmtRole(kept) => pid != PAT_PID && pid in x.tables && kept == Rest(Carried(done, pid))
    case PesRole(received) => pid in x.streams && received == Received(Own(done, pid))
  }

  ghost predicate CallbacksPlanned(x: Plan, callbacks: Callbacks) {
    forall i :: 0 <= i < |callbacks| ==> CallbackPlanned(x, callbacks[i])
  }

  ghost predicate CallbackPlanned(x: Plan, c: (int, seq<Byte>)) {
    c.0 in x.tables && c.1 in Bodies(x.tables[c.0])
  }

  /** Whoever is not registered has had no packets, and whoever is announced is registered. */
  ghost predicate AnnouncedOrIdle(x: Plan, done: seq<Data>, st: State) {
    && (forall pid :: pid in x.tables && pid !in st.roles ==> Own(done, pid) == [] && !TableAnnounced(done, pid))
    && (forall pid :: pid in x.streams && pid !in st.roles ==> Own(done, pid) == [] && !StreamAnnounced(x, done, pid))
  }

  ghost predicate Tracks(x: Plan, done: seq<Data>, st: State) {
    && (forall pid :: pid in st.roles ==> RoleTracks(x, done, pid, st.roles[pid]))
    && AnnouncedOrIdle(x, done, st)
    && CallbacksPlanned(x, st.callbacks)
    && PAT_PID in st.roles
  }

  lemma {:induction false} StartTracks(x: Plan)
    requires WellFormedPlan(x)
    ensures Tracks(x, [], Initial())
  {
    assert Carried([], PAT_PID) == [] && !HasSection([]);
    forall m ensures Seen([], m) == [] {
      assert Carried([], m) == [] && !HasSection([]);
    }
  }

  /** A packet of one PID leaves what another carried as it was. */
  lemma {:induction false} OtherPidsCarryTheSame(done: seq<Data>, d: Data, pid: int)
    requires d.pid != pid
    ensures Own(done + [d], pid) == Own(done, pid) && Carried(done + [d], pid) == Carried(done, pid)
  {
    OwnSnoc(done, d, pid);
    CarriedSnoc(done, d, pid);
    assert Own(done, pid) + [] == Own(done, pid);
  }

  /** A packet that completes no section announces nobody. */
  lemma {:induction false} NothingNewAnnounced(x: Plan, done: seq<Data>, d: Data)
    requires d.pid !in x.tables && PAT_PID in x.tables
    ensures forall pid :: TableAnnounced(done + [d], pid) <==> TableAnnounced(done, pid)
    ensures forall pid :: StreamAnnounced(x, done + [d], pid) <==> StreamAnnounced(x, done, pid)
  {
    forall m | m in x.tables ensures Seen(done + [d], m) == Seen(done, m) {
      OtherPidsCarryTheSame(done, d, m);
    }
  }

  lemma {:induction false} UnregisteredTracks(x: Plan, done: seq<Data>, d: Data, st: State)
    requires WellFormedPlan(x) && Tracks(x, done, st) && Continues(x, done, d) && d.pid !in st.roles
    ensures StepOk(st, d) && Tracks(x, done + [d], Step(st, d))
  {
    assert d.pid !in x.tables && d.pid !in x.streams;
    NothingNewAnnounced(x, done, d);
    forall pid | pid != d.pid
      ensures Own(done + [d], pid) == Own(done, pid) && Carried(done + [d], pid) == Carried(done, pid)
    {
      OtherPidsCarryTheSame(done, d, pid);
    }
    forall pid | pid in st.roles ensures RoleTracks(x, done + [d], pid, st.roles[pid]) {
      assert RoleTracks(x, done, pid, st.roles[pid]);
    }
  }

  lemma {:induction false} StreamPacketTracks(x: Plan, done: seq<Data>, d: Data, st: State)
    requires WellFormedPlan(x) && Tracks(x, done, st) && Continues(x, done, d)
    requires d.pid in st.roles && st.roles[d.pid].PesRole?
    ensures StepOk(st, d) && Tracks(x, done + [d], Step(st, d))
  {
    assert RoleTracks(x, done, d.pid, st.roles[d.pid]);
    NothingNewAnnounced(x, done, d);
    var st' := Step(st, d);
    OwnSnoc(done, d, d.pid);
    ReceivedSnoc(Own(done, d.pid), d);
    forall pid | pid in st'.roles ensures RoleTracks(x, done + [d], pid, st'.roles[pid]) {
      assert RoleTracks(x, done, pid, st.roles[pid]);
      if pid != d.pid {
        OtherPidsCarryTheSame(done, d, pid);
      }
    }
    forall pid | pid !in st.roles ensures Own(done + [d], pid) == Own(done, pid) {
      OtherPidsCarryTheSame(done, d, pid);
    }
  }

  // ---------------------------------------------------------------- section packets

  ghost predicate AllNamed(isPat: bool, bodies: seq<seq<Byte>>, roles: map<int, Role>) {
    forall q :: Named(isPat, bodies, q) ==> q in roles
  }

  lemma {:induction false} NamedSplit(isPat: bool, a: seq<seq<Byte>>, b: seq<seq<Byte>>, pid: int)
    requires Named(isPat, a + b, pid)
    ensures Named(isPat, a, pid) || Named(isPat, b, pid)
  {
    var k :| 0 <= k < |a + b| && pid in NamedBy(isPat, (a + b)[k]);
    if k < |a| {
      assert a[k] == (a + b)[k];
    } else {
      assert b[k - |a|] == (a + b)[k];
    }
  }

  /** Newly registered PIDs are fresh parsers of the kind that the plan says. */
  ghost predicate RegistersPlanned(x: Plan, isPat: bool, st: State, st': State) {
    && (forall q :: q in st.roles ==> q in st'.roles && st'.roles[q] == st.roles[q])
    && (forall q :: q in st'.roles && q !in st.roles ==>
          if isPat then q in x.tables && st'.roles[q] == PmtRole([]) else q in x.streams && st'.roles[q] == PesRole([]))
  }

  lemma {:induction false} PayloadRegisters(x: Plan, st: State, pid: int, body: seq<Byte>)
    requires WellFormedPlan(x) && CallbackPlanned(x, (pid, body))
    ensures |body| >= CRC_LENGTH
    ensures var st' := OnPayload(st, pid, pid == PAT_PID, body);
            && RegistersPlanned(x, pid == PAT_PID, st, st')
            && (forall q :: q in NamedBy(pid == PAT_PID, body) ==> q in st'.roles)
            && st'.callbacks == st.callbacks + [(pid, body)]
  {
    assert TableIsSound(x, pid);
    forall q ensures |body| >= CRC_LENGTH && (q in NamedBy(pid == PAT_PID, body) ==>
                       if pid == PAT_PID then q in x.tables else q in x.streams) {
      if pid == PAT_PID {
        PatNames(x, body, q);
      } else {
        PmtNames(x, body, q);
      }
    }
  }

  ghost predicate AllPlanned(x: Plan, pid: int, bodies: seq<seq<Byte>>) {
    forall k :: 0 <= k < |bodies| ==> CallbackPlanned(x, (pid, bodies[k]))
  }

  lemma {:induction false} PlannedBodiesOk(x: Plan, pid: int, bodies: seq<seq<Byte>>)
    requires WellFormedPlan(x) && AllPlanned(x, pid, bodies)
    ensures BodiesOk(bodies)
  {
    forall k | 0 <= k < |bodies| ensures |bodies[k]| >= CRC_LENGTH {
      PayloadRegisters(x, Initial(), pid, bodies[k]);
    }
  }

  lemma {:induction false} PayloadsRegister(x: Plan, st: State, pid: int, bodies: seq<seq<Byte>>)
    requires WellFormedPlan(x) && AllPlanned(x, pid, bodies) && BodiesOk(bodies) && CallbacksPlanned(x, st.callbacks)
    ensures var st' := OnPayloads(st, pid, pid == PAT_PID, bodies);
            && RegistersPlanned(x, pid == PAT_PID, st, st')
            && AllNamed(pid == PAT_PID, bodies, st'.roles)
            && CallbacksPlanned(x, st'.callbacks)
  {
    if bodies != [] {
      var front, last := bodies[..|bodies| - 1], bodies[|bodies| - 1];
      PayloadsRegister(x, st, pid, front);
      var mid := OnPayloads(st, pid, pid == PAT_PID, front);
      assert CallbackPlanned(x, (pid, last));
      PayloadRegisters(x, mid, pid, last);
      LastNamed(x, pid == PAT_PID, bodies, mid.roles, OnPayload(mid, pid, pid == PAT_PID, last).roles);
    }
  }

  lemma {:induction false} LastNamed(x: Plan, isPat: bool, bodies: seq<seq<Byte>>, roles: map<int, Role>,
                                     roles': map<int, Role>)
    requires bodies != [] && AllNamed(isPat, bodies[..|bodies| - 1], roles)
    requires forall q :: q in roles ==> q in roles'
    requires forall q :: q in NamedBy(isPat, bodies[|bodies| - 1]) ==> q in roles'
    ensures AllNamed(isPat, bodies, roles')
  {
    var front, last := bodies[..|bodies| - 1], bodies[|bodies| - 1];
    assert bodies == front + [last];
    forall q | Named(isPat, bodies, q) ensures q in roles' {
      NamedSplit(isPat, front, [last], q);
    }
  }

  lemma {:induction false} LaterBodiesPlanned(x: Plan, pid: int, before: seq<seq<Byte>>, bodies: seq<seq<Byte>>)
    requires pid in x.tables && before + bodies <= Bodies(x.tables[pid])
    ensures AllPlanned(x, pid, bodies)
  {
    forall k | 0 <= k < |bodies| ensures CallbackPlanned(x, (pid, bodies[k])) {
      assert (before + bodies)[|before| + k] == bodies[k] == Bodies(x.tables[pid])[|before| + k];
    }
  }

  /** What a planned section packet adds to the buffer is the next piece. */
  lemma {:induction false} NextPiece(x: Plan, done: seq<Data>, d: Data)
    requires WellFormedPlan(x) && Continues(x, done, d) && d.pid in x.tables
    ensures d.unitStart ==> d.payload != []
    ensures ContinuesTable(x.tables[d.pid], Carried(done, d.pid), d, Part(d))
  {
    var piece :| ContinuesTable(x.tables[d.pid], Carried(done, d.pid), d, piece);
    StrippedIsPiece(d.unitStart, d.payload, piece);
  }

  /** The sections that a planned packet completes, and what its parser keeps. */
  lemma {:induction false} PlannedPart(x: Plan, done: seq<Data>, d: Data, kept: seq<Byte>)
    requires WellFormedPlan(x) && Continues(x, done, d) && d.pid in x.tables && kept == Rest(Carried(done, d.pid))
    ensures Seen(done + [d], d.pid) == Seen(done, d.pid) + Sections(kept + Part(d))
    ensures Rest(Carried(done + [d], d.pid)) == Rest(kept + Part(d))
    ensures Clean(kept + Part(d)) && AllPlanned(x, d.pid, Sections(kept + Part(d)))
  {
    var c, list := Carried(done, d.pid), x.tables[d.pid];
    NextPiece(x, done, d);
    CarriedSnoc(done, d, d.pid);
    CutElsewhereIsInvisible(c, Part(d));
    PrefixOfSections(list, c + Part(d));
    LaterBodiesPlanned(x, d.pid, Sections(c), Sections(kept + Part(d)));
  }

  lemma {:induction false} SectionPacketSteps(x: Plan, done: seq<Data>, d: Data, st: State) returns (st1: State,
                                              bodies: seq<seq<Byte>>)
    requires WellFormedPlan(x) && Tracks(x, done, st) && Continues(x, done, d) && d.pid in x.tables && d.pid in st.roles
    ensures StepOk(st, d) && BodiesOk(bodies) && AllPlanned(x, d.pid, bodies)
    ensures st1.roles.Keys == st.roles.Keys && st1.callbacks == st.callbacks
    ensures forall q :: q in st.roles ==> RoleTracks(x, done + [d], q, st1.roles[q])
    ensures Step(st, d) == OnPayloads(st1, d.pid, d.pid == PAT_PID, bodies)
    ensures Seen(done + [d], d.pid) == Seen(done, d.pid) + bodies
  {
    assert RoleTracks(x, done, d.pid, st.roles[d.pid]);
    var kept := st.roles[d.pid].kept;
    NextPiece(x, done, d);
    PlannedPart(x, done, d, kept);
    var all := kept + Part(d);
    bodies := Sections(all);
    PlannedBodiesOk(x, d.pid, bodies);
    var role := if d.pid == PAT_PID then PatRole(Rest(all)) else PmtRole(Rest(all));
    st1 := st.(roles := st.roles[d.pid := role]);
    forall q | q in st.roles ensures RoleTracks(x, done + [d], q, st1.roles[q]) {
      assert RoleTracks(x, done, q, st.roles[q]);
      if q != d.pid {
        OtherPidsCarryTheSame(done, d, q);
      }
    }
  }

  /** A PID announced by now was announced before, or has just been registered. */
  lemma {:induction false} TableNewlyAnnounced(done: seq<Data>, d: Data, bodies: seq<seq<Byte>>, roles: map<int, Role>,
                                               pid: int)
    requires Seen(done + [d], d.pid) == Seen(done, d.pid) + bodies && AllNamed(d.pid == PAT_PID, bodies, roles)
    requires TableAnnounced(done + [d], pid) && pid != PAT_PID
    ensures TableAnnounced(done, pid) || pid in roles
  {
    if d.pid != PAT_PID {
      OtherPidsCarryTheSame(done, d, PAT_PID);
    } else {
      NamedSplit(true, Seen(done, PAT_PID), bodies, pid);
    }
  }

  lemma {:induction false} StreamNewlyAnnounced(x: Plan, done: seq<Data>, d: Data, bodies: seq<seq<Byte>>,
                                                roles: map<int, Role>, pid: int)
    requires Seen(done + [d], d.pid) == Seen(done, d.pid) + bodies && AllNamed(d.pid == PAT_PID, bodies, roles)
    requires StreamAnnounced(x, done + [d], pid)
    ensures StreamAnnounced(x, done, pid) || pid in roles
  {
    var m :| m in x.tables && m != PAT_PID && Named(false, Seen(done + [d], m), pid);
    if d.pid != m {
      OtherPidsCarryTheSame(done, d, m);
    } else {
      NamedSplit(false, Seen(done, m), bodies, pid);
    }
  }

  lemma {:induction false} FreshTracks(x: Plan, done: seq<Data>, d: Data, pid: int, role: Role)
    requires Own(done, pid) == [] && pid != d.pid && pid != PAT_PID
    requires if role.PesRole? then pid in x.streams && role == PesRole([]) else pid in x.tables && role == PmtRole([])
    ensures RoleTracks(x, done + [d], pid, role)
  {
    OtherPidsCarryTheSame(done, d, pid);
    assert Carried(done, pid) == [] && !HasSection([]);
  }

  lemma {:induction false} SectionPacketTracks(x: Plan, done: seq<Data>, d: Data, st: State)
    requires WellFormedPlan(x) && Tracks(x, done, st) && Continues(x, done, d) && d.pid in x.tables && d.pid in st.roles
    ensures StepOk(st, d) && Tracks(x, done + [d], Step(st, d))
  {
    var st1, bodies := SectionPacketSteps(x, done, d, st);
    PayloadsRegister(x, st1, d.pid, bodies);
    var st' := Step(st, d);
    forall q | q in st'.roles ensures RoleTracks(x, done + [d], q, st'.roles[q]) {
      if q !in st.roles {
        FreshTracks(x, done, d, q, st'.roles[q]);
      }
    }
    forall q | q in x.tables && q !in st'.roles ensures Own(done + [d], q) == [] && !TableAnnounced(done + [d], q) {
      OtherPidsCarryTheSame(done, d, q);
      if TableAnnounced(done + [d], q) {
        TableNewlyAnnounced(done, d, bodies, st'.roles, q);
      }
    }
    forall q | q in x.streams && q !in st'.roles
      ensures Own(done + [d], q) == [] && !StreamAnnounced(x, done + [d], q)
    {
      OtherPidsCarryTheSame(done, d, q);
      if StreamAnnounced(x, done + [d], q) {
        StreamNewlyAnnounced(x, done, d, bodies, st'.roles, q);
      }
    }
  }

  lemma {:induction false} NextTracks(x: Plan, done: seq<Data>, d: Data, st: State)
    requires WellFormedPlan(x) && Tracks(x, done, st) && Continues(x, done, d)
    ensures StepOk(st, d) && Tracks(x, done + [d], Step(st, d))
  {
    if d.pid !in st.roles {
      UnregisteredTracks(x, done, d, st);
    } else if st.roles[d.pid].PesRole? {
      StreamPacketTracks(x, done, d, st);
    } else {
      assert RoleTracks(x, done, d.pid, st.roles[d.pid]);
      SectionPacketTracks(x, done, d, st);
    }
  }

  lemma {:induction false} PlannedFront(x: Plan, front: seq<Data>, d: Data)
    requires WellFormedPlan(x) && Planned(x, front + [d])
    ensures Planned(x, front) && Continues(x, front, d)
  {
    var packets := front + [d];
    forall k | 0 <= k < |packets|
      ensures Continues(x, packets[..k], packets[k]) && k <= |front| && packets[..k] == front[..k]
    {
    }
    assert front[..|front|] == front;
  }

  lemma {:induction false} RunSnoc(st: State, front: seq<Data>, d: Data)
    requires RunOk(st, front) && StepOk(Run(st, front), d)
    ensures RunOk(st, front + [d]) && Run(st, front + [d]) == Step(Run(st, front), d)
  {
    RunSplit(st, front, [d]);
    RunFirst(Run(st, front), d, []);
    assert [d] + [] == [d];
  }

  /** Packets according to a plan never meet a parser that cannot take them. */
  lemma {:induction false} PlannedRuns(x: Plan, packets: seq<Data>)
    requires WellFormedPlan(x) && Planned(x, packets)
    ensures RunOk(Initial(), packets) && Tracks(x, packets, Run(Initial(), packets))
    decreases |packets|
  {
    if packets == [] {
      StartTracks(x);
    } else {
      var front, d := packets[..|packets| - 1], packets[|packets| - 1];
      assert packets == front + [d];
      PlannedFront(x, front, d);
      PlannedRuns(x, front);
      NextTracks(x, front, d, Run(Initial(), front));
      RunSnoc(Initial(), front, d);
    }
  }

  // ---------------------------------------------------------------- delivery

  /** The stream's consumer was created once, with its type, and was called with the given bytes. */
  ghost predicate Delivered(st: State, pid: int, streamType: int, es: seq<Byte>) {
    && (streamType, pid) in st.created && CreatedOnce(st.created, pid)
    && pid in st.roles && st.roles[pid].PesRole? && Concat(st.roles[pid].received) == es
  }

  lemma {:induction false} PlannedStreamIsCreated(x: Plan, packets: seq<Data>, pid: int)
    requires WellFormedPlan(x) && Planned(x, packets) && RunOk(Initial(), packets)
    requires pid in x.streams && pid in Run(Initial(), packets).roles
    ensures Run(Initial(), packets).roles[pid].PesRole?
    ensures (x.streams[pid], pid) in Run(Initial(), packets).created && CreatedOnce(Run(Initial(), packets).created, pid)
  {
    var st := Run(Initial(), packets);
    PlannedRuns(x, packets);
    assert RoleTracks(x, packets, pid, st.roles[pid]);
    EveryRunIsTraced(packets);
    StreamWasClaimed(st, pid);
    var k, i :| 0 <= k < |st.created| && st.created[k].1 == pid &&
                0 <= i < |st.callbacks| && Claims(st.callbacks, i, pid) && PmtOf(st.callbacks[i].1)[pid] == st.created[k].0;
    var c := st.callbacks[i];
    assert CallbackPlanned(x, c) && TableIsSound(x, c.0);
    PmtNames(x, c.1, pid);
    assert st.created[k] == (x.streams[pid], pid);
  }

  /** Every announced stream of a plan is delivered, in whatever order the packets of different PIDs come. */
  lemma {:induction false} PlannedStreamIsDelivered(x: Plan, packets: seq<Data>, pid: int, headers: seq<PesHeader>,
                                                    es: seq<seq<Byte>>)
    requires WellFormedPlan(x) && Planned(x, packets)
    requires pid in x.streams && StreamAnnounced(x, packets, pid)
    requires CarriesStream(Own(packets, pid), headers, es)
    ensures RunOk(Initial(), packets)
    ensures Delivered(Run(Initial(), packets), pid, x.streams[pid], Concat(es))
  {
    PlannedRuns(x, packets);
    var st := Run(Initial(), packets);
    assert pid in st.roles;
    PlannedStreamIsCreated(x, packets, pid);
    assert RoleTracks(x, packets, pid, st.roles[pid]);
    StreamBytesArrive(Own(packets, pid), headers, es);
  }

  /** Every stream that the packets announce and carry has been delivered. */
  ghost predicate AllDelivered(x: Plan, packets: seq<Data>, st: State) {
    forall pid, headers, es ::
      pid in x.streams && StreamAnnounced(x, packets, pid) && CarriesStream(Own(packets, pid), headers, es) ==>
        Delivered(st, pid, x.streams[pid], Concat(es))
  }

  lemma {:induction false} PlannedStreamsAreDelivered(x: Plan, packets: seq<Data>)
    requires WellFormedPlan(x) && Planned(x, packets)
    ensures RunOk(Initial(), packets) && AllDelivered(x, packets, Run(Initial(), packets))
  {
    PlannedRuns(x, packets);
    forall pid, headers, es |
        pid in x.streams && StreamAnnounced(x, packets, pid) && CarriesStream(Own(packets, pid), headers, es)
      ensures Delivered(Run(Initial(), packets), pid, x.streams[pid], Concat(es))
    {
      PlannedStreamIsDelivered(x, packets, pid, headers, es);
    }
  }

  /** From bytes to elementary streams: encoded packets according to a plan, any bytes but sync bytes between them,
      cut into chunks anywhere. */
  method DemultiplexPlan(ghost x: Plan, ghost units: seq<Unit>, ghost gaps: seq<seq<Byte>>, ghost rest: seq<Byte>,
                         capacity: nat, chunks: seq<seq<Byte>>) returns (demuxer: Demuxer)
    requires WellFormedPlan(x) && AllWellFormed(units) && Planned(x, UnitsData(units))
    requires WellWoven(gaps, EncodeUnits(units), rest) && Concat(chunks) == Weave(gaps, EncodeUnits(units), rest)
    requires ChunksOk(capacity, [], chunks)
    ensures demuxer.Valid() && AllDelivered(x, UnitsData(units), demuxer.View())
  {
    WovenUnitsComeBack(units, gaps, rest);
    PlannedRuns(x, UnitsData(units));
    demuxer := Demultiplex(capacity, chunks);
    PlannedStreamsAreDelivered(x, UnitsData(units));
  }
}
