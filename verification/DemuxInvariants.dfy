/**
  What holds of the registry over every run: roles never change, and every entry traces back to a table.
 */
module DemuxInvariants {
  import opened Bytes
  import opened PsiSections
  import opened Tables
  import opened PesPackets
  import opened DemuxModel

  type Callbacks = seq<(int, seq<Byte>)>

  // ---------------------------------------------------------------- roles never change

  ghost predicate SameKind(a: Role, b: Role) {
    (a.PatRole? <==> b.PatRole?) && (a.PmtRole? <==> b.PmtRole?)
  }

  /** Later in a run: registered PIDs keep their kind of parser, and the logs only grow. */
  ghost predicate Extends(st: State, st': State) {
    && (forall pid :: pid in st.roles ==> pid in st'.roles && SameKind(st.roles[pid], st'.roles[pid]))
    && st.created <= st'.created && st.callbacks <= st'.callbacks
  }

  lemma {:induction false} PayloadsExtend(st: State, pid: int, isPat: bool, bodies: seq<seq<Byte>>)
    requires BodiesOk(bodies)
    ensures Extends(st, OnPayloads(st, pid, isPat, bodies))
    decreases |bodies|
  {
    if bodies != [] {
      PayloadsExtend(st, pid, isPat, bodies[..|bodies| - 1]);
    }
  }

  lemma {:induction false} StepExtends(st: State, d: Data)
    requires StepOk(st, d)
    ensures Extends(st, Step(st, d))
  {
    if d.pid in st.roles && !st.roles[d.pid].PesRole? {
      var all := st.roles[d.pid].kept + Stripped(d.unitStart, d.payload);
      var role := if st.roles[d.pid].PatRole? then PatRole(Rest(all)) else PmtRole(Rest(all));
      PayloadsExtend(st.(roles := st.roles[d.pid := role]), d.pid, role.PatRole?, Sections(all));
    }
  }

  /** A PID's role never changes once it is registered. */
  lemma {:induction false} RunExtends(st: State, packets: seq<Data>)
    requires RunOk(st, packets)
    ensures Extends(st, Run(st, packets))
    decreases |packets|
  {
    if packets != [] {
      StepExtends(st, packets[0]);
      RunExtends(Step(st, packets[0]), packets[1..]);
    }
  }

  // ---------------------------------------------------------------- provenance

  /** The table in a program association callback, and in a program map callback. */
  ghost function PatOf(body: seq<Byte>): map<int, int> {
    FirstWins(PatEntries(body))
  }

  ghost function PmtOf(body: seq<Byte>): map<int, int> {
    if |body| >= CRC_LENGTH then FirstWins(PmtEntries(body)) else map[]
  }

  /** Some association section named the PID. */
  ghost predicate NamedByPat(callbacks: Callbacks, pid: int) {
    exists i :: 0 <= i < |callbacks| && callbacks[i].0 == PAT_PID && pid in PatOf(callbacks[i].1)
  }

  /** Callback i is a map section that gives the PID. */
  ghost predicate Claims(callbacks: Callbacks, i: int, pid: int)
    requires 0 <= i < |callbacks|
  {
    callbacks[i].0 != PAT_PID && pid in PmtOf(callbacks[i].1)
  }

  /** The first map section that gives the PID gives it with this stream type. */
  ghost predicate FirstClaimed(callbacks: Callbacks, pid: int, streamType: int) {
    exists i :: 0 <= i < |callbacks| && Claims(callbacks, i, pid) && PmtOf(callbacks[i].1)[pid] == streamType &&
                forall j :: 0 <= j < i ==> !Claims(callbacks, j, pid)
  }

  /** The callbacks come from section parsers, and everything they name is registered. */
  ghost predicate CallbacksRegistered(st: State) {
    forall i :: 0 <= i < |st.callbacks| ==> CallbackRegistered(st.roles, st.callbacks[i])
  }

  ghost predicate CallbackRegistered(roles: map<int, Role>, c: (int, seq<Byte>)) {
    && c.0 in roles && !roles[c.0].PesRole?
    && forall pid :: pid in (if c.0 == PAT_PID then PatOf(c.1) else PmtOf(c.1)) ==> pid in roles
  }

  /** PID 0 alone has an association parser, map parsers are named by an association section. */
  ghost predicate TablesTraced(st: State) {
    && PAT_PID in st.roles && st.roles[PAT_PID].PatRole?
    && (forall pid :: pid in st.roles && st.roles[pid].PatRole? ==> pid == PAT_PID)
    && (forall pid :: pid in st.roles && st.roles[pid].PmtRole? ==> NamedByPat(st.callbacks, pid))
  }

  /** The PID was created exactly once. */
  ghost predicate CreatedOnce(created: seq<(int, int)>, pid: int) {
    exists k :: 0 <= k < |created| && created[k].1 == pid &&
                forall j :: 0 <= j < |created| && j != k ==> created[j].1 != pid
  }

  /** Exactly the stream parsers were created, once each, with the stream type of the first section that gave the PID. */
  ghost predicate StreamsTraced(st: State) {
    && (forall pid :: pid in st.roles && st.roles[pid].PesRole? ==> CreatedOnce(st.created, pid))
    && (forall k :: 0 <= k < |st.created| ==>
          && st.created[k].1 in st.roles && st.roles[st.created[k].1].PesRole?
          && FirstClaimed(st.callbacks, st.created[k].1, st.created[k].0))
  }

  ghost predicate Traced(st: State) {
    CallbacksRegistered(st) && TablesTraced(st) && StreamsTraced(st)
  }

  lemma {:induction false} NamedStays(callbacks: Callbacks, c: (int, seq<Byte>), pid: int)
    requires NamedByPat(callbacks, pid)
    ensures NamedByPat(callbacks + [c], pid)
  {
    var i :| 0 <= i < |callbacks| && callbacks[i].0 == PAT_PID && pid in PatOf(callbacks[i].1);
    assert (callbacks + [c])[i] == callbacks[i];
  }

  lemma {:induction false} FirstClaimStays(callbacks: Callbacks, c: (int, seq<Byte>), pid: int, streamType: int)
    requires FirstClaimed(callbacks, pid, streamType)
    ensures FirstClaimed(callbacks + [c], pid, streamType)
  {
    var i :| 0 <= i < |callbacks| && Claims(callbacks, i, pid) && PmtOf(callbacks[i].1)[pid] == streamType &&
             forall j :: 0 <= j < i ==> !Claims(callbacks, j, pid);
    var more := callbacks + [c];
    assert Claims(more, i, pid) && PmtOf(more[i].1)[pid] == streamType;
    forall j | 0 <= j < i ensures !Claims(more, j, pid) {
      assert !Claims(callbacks, j, pid);
    }
  }

  /** A new callback of a registered section parser, before what it names is registered. */
  lemma {:induction false} CallbackRegisteredStays(roles: map<int, Role>, roles': map<int, Role>, c: (int, seq<Byte>))
    requires CallbackRegistered(roles, c)
    requires forall pid :: pid in roles ==> pid in roles' && SameKind(roles[pid], roles'[pid])
    ensures CallbackRegistered(roles', c)
  {}

  lemma {:induction false} PatKeepsTraced(st: State, body: seq<Byte>)
    requires Traced(st) && |body| >= CRC_LENGTH
    ensures Traced(OnPayload(st, PAT_PID, true, body))
  {
    var st', c := OnPayload(st, PAT_PID, true, body), (PAT_PID, body);
    forall i | 0 <= i < |st'.callbacks| ensures CallbackRegistered(st'.roles, st'.callbacks[i]) {
      if i < |st.callbacks| {
        CallbackRegisteredStays(st.roles, st'.roles, st.callbacks[i]);
      }
    }
    forall pid | pid in st'.roles && st'.roles[pid].PmtRole? ensures NamedByPat(st'.callbacks, pid) {
      if pid in st.roles {
        NamedStays(st.callbacks, c, pid);
      } else {
        assert st'.callbacks[|st.callbacks|] == c;
      }
    }
    forall k | 0 <= k < |st.created| ensures FirstClaimed(st'.callbacks, st.created[k].1, st.created[k].0) {
      FirstClaimStays(st.callbacks, c, st.created[k].1, st.created[k].0);
    }
  }

  lemma {:induction false} PmtKeepsTraced(st: State, pid: int, body: seq<Byte>)
    requires Traced(st) && |body| >= CRC_LENGTH && pid in st.roles && st.roles[pid].PmtRole?
    ensures Traced(OnPayload(st, pid, false, body))
  {
    var st', c := OnPayload(st, pid, false, body), (pid, body);
    forall i | 0 <= i < |st'.callbacks| ensures CallbackRegistered(st'.roles, st'.callbacks[i]) {
      if i < |st.callbacks| {
        CallbackRegisteredStays(st.roles, st'.roles, st.callbacks[i]);
      }
    }
    forall p | p in st'.roles && st'.roles[p].PmtRole? ensures NamedByPat(st'.callbacks, p) {
      NamedStays(st.callbacks, c, p);
    }
    StreamsStayTraced(st, pid, body);
  }

  lemma {:induction false} StreamsStayTraced(st: State, pid: int, body: seq<Byte>)
    requires Traced(st) && |body| >= CRC_LENGTH && pid in st.roles && st.roles[pid].PmtRole?
    ensures StreamsTraced(OnPayload(st, pid, false, body))
  {
    var st', c, pmt := OnPayload(st, pid, false, body), (pid, body), PmtOf(body);
    var added := pmt.Keys - st.roles.Keys;
    var calls := Creations(added, pmt);
    CreationsMeaning(added, pmt);
    assert st'.created == st.created + calls;
    forall k | 0 <= k < |st'.created|
      ensures st'.created[k].1 in st'.roles && st'.roles[st'.created[k].1].PesRole?
      ensures FirstClaimed(st'.callbacks, st'.created[k].1, st'.created[k].0)
    {
      if k < |st.created| {
        FirstClaimStays(st.callbacks, c, st.created[k].1, st.created[k].0);
      } else {
        assert st'.created[k] in calls;
        NewClaimIsFirst(st, c, st'.created[k].1);
      }
    }
    forall p | p in st'.roles && st'.roles[p].PesRole? ensures CreatedOnce(st'.created, p) {
      if p in st.roles {
        OldCreation(st.created, calls, added, pmt, p);
      } else {
        NewCreation(st.created, calls, added, pmt, p, st.roles.Keys);
      }
    }
  }

  lemma {:induction false} NewClaimIsFirst(st: State, c: (int, seq<Byte>), p: int)
    requires CallbacksRegistered(st) && c.0 != PAT_PID && p in PmtOf(c.1) && p !in st.roles
    ensures FirstClaimed(st.callbacks + [c], p, PmtOf(c.1)[p])
  {
    var i, more := |st.callbacks|, st.callbacks + [c];
    assert more[i] == c && Claims(more, i, p);
    forall j | 0 <= j < i ensures !Claims(more, j, p) {
      assert CallbackRegistered(st.roles, st.callbacks[j]);
    }
  }

  lemma {:induction false} OldCreation(created: seq<(int, int)>, calls: seq<(int, int)>, added: set<int>, pmt: map<int,
                                       int>, p: int)
    requires CreatedOnce(created, p) && p !in added
    requires forall c :: c in calls ==> c.1 in added
    ensures CreatedOnce(created + calls, p)
  {
    var k :| 0 <= k < |created| && created[k].1 == p && forall j :: 0 <= j < |created| && j != k ==> created[j].1 != p;
    var all := created + calls;
    assert all[k].1 == p;
    forall j | 0 <= j < |all| && j != k ensures all[j].1 != p {
      if j >= |created| {
        assert all[j] in calls;
      }
    }
  }

  lemma {:induction false} NewCreation(created: seq<(int, int)>, calls: seq<(int, int)>, added: set<int>, pmt: map<int,
                                       int>, p: int, known: set<int>)
    requires forall k :: 0 <= k < |created| ==> created[k].1 in known
    requires p in added && added <= pmt.Keys && added !! known
    requires forall c :: c in calls <==> c.1 in added && c.0 == pmt[c.1]
    requires forall i, j :: 0 <= i < j < |calls| ==> calls[i].1 < calls[j].1
    ensures CreatedOnce(created + calls, p)
  {
    assert (pmt[p], p) in calls;
    var i :| 0 <= i < |calls| && calls[i] == (pmt[p], p);
    var all, k := created + calls, |created| + i;
    assert all[k].1 == p;
    forall j | 0 <= j < |all| && j != k ensures all[j].1 != p {
      if j < |created| {
        assert all[j] == created[j];
      } else {
        assert all[j] == calls[j - |created|];
      }
    }
  }

  lemma {:induction false} PayloadsKeepTraced(st: State, pid: int, isPat: bool, bodies: seq<seq<Byte>>)
    requires Traced(st) && BodiesOk(bodies) && pid in st.roles
    requires if isPat then pid == PAT_PID else st.roles[pid].PmtRole?
    ensures Traced(OnPayloads(st, pid, isPat, bodies))
    decreases |bodies|
  {
    if bodies != [] {
      var front, last := bodies[..|bodies| - 1], bodies[|bodies| - 1];
      PayloadsKeepTraced(st, pid, isPat, front);
      PayloadsExtend(st, pid, isPat, front);
      var st' := OnPayloads(st, pid, isPat, front);
      if isPat {
        PatKeepsTraced(st', last);
      } else {
        PmtKeepsTraced(st', pid, last);
      }
    }
  }

  /** Only the kinds of the roles matter. */
  lemma {:induction false} SameKindsTraced(st: State, pid: int, role: Role)
    requires Traced(st) && pid in st.roles && SameKind(st.roles[pid], role)
    ensures Traced(st.(roles := st.roles[pid := role]))
  {
    var st' := st.(roles := st.roles[pid := role]);
    forall i | 0 <= i < |st.callbacks| ensures CallbackRegistered(st'.roles, st.callbacks[i]) {
      CallbackRegisteredStays(st.roles, st'.roles, st.callbacks[i]);
    }
  }

  lemma {:induction false} StepKeepsTraced(st: State, d: Data)
    requires Traced(st) && StepOk(st, d)
    ensures Traced(Step(st, d))
  {
    if d.pid in st.roles {
      if st.roles[d.pid].PesRole? {
        SameKindsTraced(st, d.pid, PesRole(st.roles[d.pid].received + EsCalls(d.unitStart, d.payload)));
      } else {
        var all := st.roles[d.pid].kept + Stripped(d.unitStart, d.payload);
        var role := if st.roles[d.pid].PatRole? then PatRole(Rest(all)) else PmtRole(Rest(all));
        SameKindsTraced(st, d.pid, role);
        PayloadsKeepTraced(st.(roles := st.roles[d.pid := role]), d.pid, role.PatRole?, Sections(all));
      }
    }
  }

  /** Over every run from the start: PID 0 alone is the association parser, every map parser was named by an association
      section, exactly the stream parsers were created, once each and with the stream type of the first map section
      that gave the PID, and everything a section named is registered. */
  lemma {:induction false} RunKeepsTraced(st: State, packets: seq<Data>)
    requires Traced(st) && RunOk(st, packets)
    ensures Traced(Run(st, packets))
    decreases |packets|
  {
    if packets != [] {
      StepKeepsTraced(st, packets[0]);
      RunKeepsTraced(Step(st, packets[0]), packets[1..]);
    }
  }

  lemma {:induction false} EveryRunIsTraced(packets: seq<Data>)
    requires RunOk(Initial(), packets)
    ensures Traced(Run(Initial(), packets))
  {
    assert Traced(Initial());
    RunKeepsTraced(Initial(), packets);
  }

  /** A registered stream was created with the type of a map section that gave it. */
  lemma {:induction false} StreamWasClaimed(st: State, pid: int)
    requires Traced(st) && pid in st.roles && st.roles[pid].PesRole?
    ensures exists k, i :: 0 <= k < |st.created| && st.created[k].1 == pid &&
              0 <= i < |st.callbacks| && Claims(st.callbacks, i, pid) && PmtOf(st.callbacks[i].1)[pid] == st.created[k].0
  {
    assert CreatedOnce(st.created, pid);
    var k :| 0 <= k < |st.created| && st.created[k].1 == pid;
    assert FirstClaimed(st.callbacks, st.created[k].1, st.created[k].0);
  }
}
