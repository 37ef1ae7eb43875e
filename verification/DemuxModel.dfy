/**
  The demultiplexer as a state machine over packets: a registry that maps PIDs to parsers and grows
  when a table names new PIDs.
 */
module DemuxModel {
  import opened Bytes
  import opened TsPackets
  import opened PsiSections
  import opened Tables
  import opened PesPackets

  const PAT_PID: int := 0

  /** A registered parser with its state. */
  datatype Role =
    | PatRole(kept: seq<Byte>)
    | PmtRole(kept: seq<Byte>)
    | PesRole(received: seq<seq<Byte>>)

  /** The registry, the calls of the consumer factory as (stream type, PID), and the section callbacks made so far
      as (PID, section body). */
  datatype State = State(roles: map<int, Role>, created: seq<(int, int)>, callbacks: seq<(int, seq<Byte>)>)

  /** What the demultiplexer sees of a packet; `fits` tells whether the payload view lies inside the packet. */
  datatype Data = Data(pid: int, unitStart: bool, fits: bool, payload: seq<Byte>)

  ghost function DataOf(f: seq<Byte>): Data
    requires |f| == PACKET_SIZE
  {
    Data(Pid(f), PayloadUnitStart(f), AdaptationFits(f), if AdaptationFits(f) then Payload(f) else [])
  }

  ghost function AllDataOf(frames: seq<seq<Byte>>): seq<Data>
    requires forall k :: 0 <= k < |frames| ==> |frames[k]| == PACKET_SIZE
  {
    if frames == [] then [] else [DataOf(frames[0])] + AllDataOf(frames[1..])
  }

  ghost function Initial(): State {
    State(map[PAT_PID := PatRole([])], [], [])
  }

  // ---------------------------------------------------------------- tables

  /** The registry with a role for each of the given PIDs that had none. */
  ghost function Registered(roles: map<int, Role>, pids: set<int>, role: Role): map<int, Role> {
    (map pid | pid in pids :: role) + roles
  }

  ghost function OnPat(st: State, pat: map<int, int>): State {
    st.(roles := Registered(st.roles, pat.Keys, PmtRole([])))
  }

  lemma {:induction false} MemberExists<T>(s: set<T>) returns (x: T)
    requires s != {}
    ensures x in s
  {
    x :| x in s;
  }

  lemma {:induction false} MinimumExists(s: set<int>)
    requires s != {}
    ensures exists k :: IsMinimum(s, k)
  {
    var k := MemberExists(s);
    if s - {k} == {} {
      assert forall j :: j in s ==> j == k || j in s - {k};
      assert IsMinimum(s, k);
    } else {
      MinimumExists(s - {k});
      var m :| IsMinimum(s - {k}, m);
      assert forall j :: j in s ==> j == k || j in s - {k};
      if k < m {
        assert IsMinimum(s, k);
      } else {
        assert IsMinimum(s, m);
      }
    }
  }

  predicate IsMinimum(s: set<int>, k: int) {
    k in s && forall j :: j in s ==> k <= j
  }

  /** The factory calls for a set of PIDs of a table, in the order in which a std::map visits its keys. */
  ghost function Creations(pids: set<int>, pmt: map<int, int>): seq<(int, int)>
    requires pids <= pmt.Keys
  {
    if pids == {} then []
    else
      MinimumExists(pids);
      var k :| IsMinimum(pids, k);
      [(pmt[k], k)] + Creations(pids - {k}, pmt)
  }

  lemma {:induction false} CreationsStep(pids: set<int>, pmt: map<int, int>, k: int)
    requires pids <= pmt.Keys && IsMinimum(pids, k)
    ensures Creations(pids, pmt) == [(pmt[k], k)] + Creations(pids - {k}, pmt)
  {}

  /** Each PID is created once, with its stream type, in ascending order. */
  lemma {:induction false} CreationsMeaning(pids: set<int>, pmt: map<int, int>)
    requires pids <= pmt.Keys
    ensures forall c :: c in Creations(pids, pmt) <==> c.1 in pids && c.0 == pmt[c.1]
    ensures forall i, j :: 0 <= i < j < |Creations(pids, pmt)| ==> Creations(pids, pmt)[i].1 < Creations(pids, pmt)[j].1
  {
    if pids != {} {
      MinimumExists(pids);
      var k :| IsMinimum(pids, k);
      CreationsStep(pids, pmt, k);
      CreationsMeaning(pids - {k}, pmt);
      var rest := Creations(pids - {k}, pmt);
      assert forall j :: 0 <= j < |rest| ==> rest[j] in rest;
    }
  }

  ghost function OnPmt(st: State, pmt: map<int, int>): State {
    State(Registered(st.roles, pmt.Keys, PesRole([])), st.created + Creations(pmt.Keys - st.roles.Keys, pmt),
          st.callbacks)
  }

  /** A section callback of the parser at a PID. */
  ghost function OnPayload(st: State, pid: int, isPat: bool, body: seq<Byte>): State
    requires |body| >= CRC_LENGTH
  {
    var st' := st.(callbacks := st.callbacks + [(pid, body)]);
    if isPat then OnPat(st', FirstWins(PatEntries(body))) else OnPmt(st', FirstWins(PmtEntries(body)))
  }

  ghost predicate BodiesOk(bodies: seq<seq<Byte>>) {
    forall k :: 0 <= k < |bodies| ==> |bodies[k]| >= CRC_LENGTH
  }

  ghost function OnPayloads(st: State, pid: int, isPat: bool, bodies: seq<seq<Byte>>): State
    requires BodiesOk(bodies)
  {
    if bodies == [] then st
    else OnPayload(OnPayloads(st, pid, isPat, bodies[..|bodies| - 1]), pid, isPat, bodies[|bodies| - 1])
  }

  // ---------------------------------------------------------------- packets

  /** The section parser can take this packet: a unit start has a pointer field, every section has room for its
      extended header and a checksum. */
  ghost predicate PsiOk(kept: seq<Byte>, d: Data) {
    && (d.unitStart ==> d.payload != [])
    && Clean(kept + Stripped(d.unitStart, d.payload))
    && BodiesOk(Sections(kept + Stripped(d.unitStart, d.payload)))
  }

  /** What the parsers ask of a packet for a registered PID. */
  ghost predicate StepOk(st: State, d: Data) {
    d.pid in st.roles ==>
      d.fits &&
      match st.roles[d.pid]
      case PatRole(kept) => PsiOk(kept, d)
      case PmtRole(kept) => PsiOk(kept, d)
      case PesRole(_) => PesOk(d.unitStart, d.payload)
  }

  ghost function Step(st: State, d: Data): State
    requires StepOk(st, d)
  {
    if d.pid !in st.roles then st
    else
      match st.roles[d.pid]
      case PatRole(kept) =>
        var all := kept + Stripped(d.unitStart, d.payload);
        OnPayloads(st.(roles := st.roles[d.pid := PatRole(Rest(all))]), d.pid, true, Sections(all))
      case PmtRole(kept) =>
        var all := kept + Stripped(d.unitStart, d.payload);
        OnPayloads(st.(roles := st.roles[d.pid := PmtRole(Rest(all))]), d.pid, false, Sections(all))
      case PesRole(received) =>
        st.(roles := st.roles[d.pid := PesRole(received + EsCalls(d.unitStart, d.payload))])
  }

  ghost predicate RunOk(st: State, packets: seq<Data>)
    decreases |packets|
  {
    packets != [] ==> StepOk(st, packets[0]) && RunOk(Step(st, packets[0]), packets[1..])
  }

  ghost function Run(st: State, packets: seq<Data>): State
    requires RunOk(st, packets)
    decreases |packets|
  {
    if packets == [] then st else Run(Step(st, packets[0]), packets[1..])
  }

  lemma {:induction false} RunFirst(st: State, d: Data, rest: seq<Data>)
    ensures RunOk(st, [d] + rest) <==> StepOk(st, d) && RunOk(Step(st, d), rest)
    ensures RunOk(st, [d] + rest) ==> Run(st, [d] + rest) == Run(Step(st, d), rest)
  {
    assert ([d] + rest)[1..] == rest;
  }

  lemma {:induction false} RunSplit(st: State, a: seq<Data>, b: seq<Data>)
    ensures RunOk(st, a + b) <==> RunOk(st, a) && RunOk(Run(st, a), b)
    ensures RunOk(st, a + b) ==> Run(st, a + b) == Run(Run(st, a), b)
    decreases |a|
  {
    if a == [] {
      assert a + b == b;
    } else {
      assert (a + b)[0] == a[0] && (a + b)[1..] == a[1..] + b;
      if StepOk(st, a[0]) {
        RunSplit(Step(st, a[0]), a[1..], b);
      }
    }
  }
}
