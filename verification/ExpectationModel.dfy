/**
  What happens to a program's expectations while its mock functions are called, as a state
  machine over values: expectations are declared, given prerequisites and called, in any order.
 */
module ExpectationModel {
  import opened PrerequisiteGraphs

  /** Cardinality between least and most; calls counts the invocations so far. */
  datatype Status = Status(least: nat, most: nat, retiresOnSaturation: bool, calls: nat, retired: bool) {
    predicate Satisfied() {
      least <= calls <= most
    }

    predicate Saturated() {
      calls >= most
    }
  }

  datatype State<T(==)> = State(graph: Graph<T>, status: map<T, Status>)

  ghost predicate Consistent<T>(s: State<T>) {
    s.graph.Keys == s.status.Keys && WellFormed(s.graph) && Acyclic(s.graph)
  }

  ghost function RetiredSet<T>(status: map<T, Status>): set<T> {
    set e | e in status && status[e].retired
  }

  ghost predicate AllSatisfied<T>(status: map<T, Status>, who: set<T>) {
    forall e :: e in who && e in status ==> status[e].Satisfied()
  }

  ghost function RetireAll<T>(status: map<T, Status>, who: set<T>): map<T, Status> {
    map e | e in status :: if e in who then status[e].(retired := true) else status[e]
  }

  ghost function Increment<T>(status: map<T, Status>, e: T): map<T, Status>
    requires e in status
  {
    status[e := status[e].(calls := status[e].calls + 1)]
  }

  ghost function RetirePrerequisites<T>(s: State<T>, e: T): (r: State<T>)
    requires Consistent(s) && e in s.graph
    ensures Consistent(r) && r.graph == s.graph
  {
    if s.status[e].retired then s
    else s.(status := RetireAll(s.status, Transitive(s.graph, e)))
  }

  ghost predicate CanHandle<T>(s: State<T>, e: T)
    requires Consistent(s) && e in s.graph
  {
    !s.status[e].retired && AllSatisfied(s.status, Transitive(s.graph, e))
  }

  ghost function Counted<T>(s: State<T>, e: T): (r: State<T>)
    requires Consistent(s) && e in s.graph
    ensures Consistent(r) && r.graph == s.graph
  {
    s.(status := Increment(s.status, e))
  }

  ghost function RetireIfSaturated<T>(s: State<T>, e: T): (r: State<T>)
    requires Consistent(s) && e in s.graph
    ensures Consistent(r) && r.graph == s.graph
  {
    if s.status[e].retiresOnSaturation && s.status[e].Saturated()
    then s.(status := RetireAll(s.status, {e}))
    else s
  }

  /** The call is counted against e; unless it is excessive, e's prerequisites are retired and
      then, if it asked for that, e itself once it is saturated. */
  ghost function Handle<T>(s: State<T>, e: T): State<T>
    requires Consistent(s) && e in s.graph
  {
    if s.status[e].Saturated() then Counted(s, e)
    else RetireIfSaturated(RetirePrerequisites(Counted(s, e), e), e)
  }

  // ---------------------------------------------------------------- runs

  datatype Event<T> =
    | Declare(e: T, least: nat, most: nat, retiresOnSaturation: bool)
    | After(e: T, prerequisite: T)
    | Call(e: T)

  ghost predicate MayHappen<T>(s: State<T>, event: Event<T>)
    requires Consistent(s)
  {
    match event
    case Declare(e, least, most, r) => e !in s.graph
    case After(e, p) =>
      // clauses belong to the statement that declares e, so nobody depends on e yet
      && e in s.graph && p in s.graph && p != e
      && !s.status[e].retired && s.status[e].calls == 0
      && forall n :: n in s.graph ==> e !in s.graph[n]
    case Call(e) => e in s.graph && CanHandle(s, e)
  }

  ghost function Next<T>(s: State<T>, event: Event<T>): State<T>
    requires Consistent(s) && MayHappen(s, event)
  {
    match event
    case Declare(e, least, most, r) =>
      State(s.graph[e := []], s.status[e := Status(least, most, r, 0, false)])
    case After(e, p) =>
      if p in s.graph[e] then s else s.(graph := s.graph[e := s.graph[e] + [p]])
    case Call(e) => Handle(s, e)
  }

  // ---------------------------------------------------------------- what every run keeps

  /** e's prerequisites are retired, and satisfied. */
  ghost predicate Settled<T>(s: State<T>, e: T)
    requires WellFormed(s.graph)
  {
    forall p :: p in Transitive(s.graph, e) ==>
      p in s.status && s.status[p].retired && s.status[p].Satisfied()
  }

  /** Whoever is retired has only retired prerequisites, and whoever took a call within its
      cardinality has only retired and satisfied ones. */
  ghost predicate Ordered<T>(s: State<T>) {
    && Consistent(s)
    && Closed(s.graph, RetiredSet(s.status))
    && (forall e :: e in s.status ==> s.status[e].calls > 0 && s.status[e].most > 0 ==> Settled(s, e))
  }

  /** t is s with new prerequisites for e, or with e newly declared; e is idle and nobody's prerequisite. */
  ghost predicate Grown<T>(s: State<T>, t: State<T>, e: T) {
    && Gains(s.graph, t.graph, e) && WellFormed(t.graph) && t.graph.Keys == t.status.Keys
    && s.status.Keys <= t.status.Keys
    && (forall n :: n in s.status && n != e ==> t.status[n] == s.status[n])
    && (forall n :: n in t.status && n == e ==> t.status[n].calls == 0 && !t.status[n].retired)
    && (forall n :: n in s.status && n == e ==> !s.status[n].retired)
  }

  lemma {:induction false} GrownKeepsClosure<T>(s: State<T>, t: State<T>, e: T)
    requires Consistent(s) && Grown(s, t, e)
    requires Closed(s.graph, RetiredSet(s.status))
    ensures Closed(t.graph, RetiredSet(t.status))
  {
    assert RetiredSet(t.status) == RetiredSet(s.status);
    ClosedInBoth(s.graph, t.graph, e, RetiredSet(s.status));
  }

  lemma {:induction false} GrownKeepsSettled<T>(s: State<T>, t: State<T>, e: T, n: T)
    requires Consistent(s) && Consistent(t) && Grown(s, t, e)
    requires n in s.graph && n != e && Settled(s, n)
    requires Transitive(t.graph, n) == Transitive(s.graph, n)
    ensures Settled(t, n)
  {
    NewestIsNobodysPrerequisite(s.graph, t.graph, e, n);
  }

  lemma {:induction false} GrownKeepsOrder<T>(s: State<T>, t: State<T>, e: T)
    requires Ordered(s) && Grown(s, t, e)
    ensures Ordered(t)
  {
    NewestNodeGainsPrerequisites(s.graph, t.graph, e);
    GrownKeepsClosure(s, t, e);
    forall n | n in t.status && t.status[n].calls > 0 && t.status[n].most > 0
      ensures Settled(t, n)
    {
      GrownKeepsSettled(s, t, e, n);
    }
  }

  lemma {:induction false} DeclareGrows<T>(s: State<T>, event: Event<T>)
    requires Consistent(s) && event.Declare? && MayHappen(s, event)
    ensures Grown(s, Next(s, event), event.e)
  {
    var t := Next(s, event);
    forall n, m | n in t.graph && m in t.graph[n]
      ensures m in s.graph
    {
      assert n != event.e;
    }
  }

  lemma {:induction false} AfterGrows<T>(s: State<T>, event: Event<T>)
    requires Consistent(s) && event.After? && MayHappen(s, event)
    ensures Grown(s, Next(s, event), event.e)
  {
    var t := Next(s, event);
    forall n, m | n in t.graph && m in t.graph[n]
      ensures m in s.graph && m != event.e
    {
      assert n == event.e ==> m in s.graph[n] || m == event.prerequisite;
    }
  }

  /** The retired set stays closed when everything e transitively depends on is retired, and then
      when e itself is. */
  lemma {:induction false} RetiringKeepsClosure<T>(g: Graph<T>, status: map<T, Status>, e: T)
    requires WellFormed(g) && g.Keys == status.Keys && e in g
    requires Closed(g, RetiredSet(status))
    ensures var r := RetireAll(status, Transitive(g, e));
      Closed(g, RetiredSet(r)) && Closed(g, RetiredSet(RetireAll(r, {e})))
  {
    var r := RetireAll(status, Transitive(g, e));
    assert RetiredSet(r) == RetiredSet(status) + Transitive(g, e);
    assert RetiredSet(RetireAll(r, {e})) == RetiredSet(r) + {e};
  }

  /** Between s and t, only e was called; others may have been retired in addition. */
  ghost predicate OnlyCalled<T>(s: State<T>, t: State<T>, e: T) {
    && t.graph == s.graph && t.status.Keys == s.status.Keys
    && forall n :: n in s.status ==>
      && t.status[n].least == s.status[n].least && t.status[n].most == s.status[n].most
      && (s.status[n].retired ==> t.status[n].retired)
      && t.status[n].calls == s.status[n].calls + (if n == e then 1 else 0)
  }

  lemma {:induction false} CountedIsCalled<T>(s: State<T>, e: T)
    requires Consistent(s) && e in s.graph
    ensures OnlyCalled(s, Counted(s, e), e)
  {
  }

  lemma {:induction false} RetiringIsNoCall<T>(s: State<T>, t: State<T>, e: T, who: set<T>)
    requires OnlyCalled(s, t, e)
    ensures OnlyCalled(s, t.(status := RetireAll(t.status, who)), e)
  {
  }

  lemma {:induction false} HandleCountsOnce<T>(s: State<T>, e: T)
    requires Consistent(s) && e in s.graph
    ensures OnlyCalled(s, Handle(s, e), e) && Consistent(Handle(s, e))
  {
    var c := Counted(s, e);
    CountedIsCalled(s, e);
    RetiringIsNoCall(s, c, e, Transitive(s.graph, e));
    RetiringIsNoCall(s, RetirePrerequisites(c, e), e, {e});
  }

  lemma {:induction false} HandleRetires<T>(s: State<T>, e: T)
    requires Consistent(s) && e in s.graph
    requires !s.status[e].Saturated() && !s.status[e].retired
    ensures Transitive(s.graph, e) <= RetiredSet(Handle(s, e).status)
  {
  }

  lemma {:induction false} HandleKeepsClosure<T>(s: State<T>, e: T)
    requires Consistent(s) && e in s.graph && !s.status[e].retired
    requires Closed(s.graph, RetiredSet(s.status))
    ensures Closed(s.graph, RetiredSet(Handle(s, e).status))
  {
    var c := Counted(s, e);
    assert RetiredSet(c.status) == RetiredSet(s.status);
    RetiringKeepsClosure(s.graph, c.status, e);
  }

  lemma {:induction false} SettledStaysSettled<T>(s: State<T>, t: State<T>, e: T, n: T)
    requires Consistent(s) && Consistent(t) && OnlyCalled(s, t, e)
    requires e in s.graph && !s.status[e].retired
    requires Settled(s, n)
    ensures Settled(t, n)
  {
  }

  lemma {:induction false} CallKeepsOrder<T>(s: State<T>, e: T)
    requires Ordered(s) && e in s.graph && CanHandle(s, e)
    ensures Ordered(Handle(s, e))
  {
    var t := Handle(s, e);
    HandleCountsOnce(s, e);
    HandleKeepsClosure(s, e);
    forall n | n in t.status && t.status[n].calls > 0 && t.status[n].most > 0
      ensures Settled(t, n)
    {
      if s.status[n].calls > 0 {
        SettledStaysSettled(s, t, e, n);
      } else {
        assert n == e;
        HandleRetires(s, e);
        forall p | p in Transitive(s.graph, e)
          ensures t.status[p].retired && t.status[p].Satisfied()
        {
          assert p != e && s.status[p].Satisfied();
        }
      }
    }
  }

  lemma {:induction false} NextIsConsistent<T>(s: State<T>, event: Event<T>)
    requires Consistent(s) && MayHappen(s, event)
    ensures Consistent(Next(s, event))
  {
    match event
    case Declare(e, _, _, _) =>
      DeclareGrows(s, event);
      NewestNodeGainsPrerequisites(s.graph, Next(s, event).graph, e);
    case After(e, _) =>
      AfterGrows(s, event);
      NewestNodeGainsPrerequisites(s.graph, Next(s, event).graph, e);
    case Call(e) => HandleCountsOnce(s, e);
  }

  lemma {:induction false} NextKeepsOrder<T>(s: State<T>, event: Event<T>)
    requires Ordered(s) && MayHappen(s, event)
    ensures Ordered(Next(s, event))
  {
    match event
    case Declare(e, _, _, _) =>
      DeclareGrows(s, event);
      GrownKeepsOrder(s, Next(s, event), e);
    case After(e, _) =>
      AfterGrows(s, event);
      GrownKeepsOrder(s, Next(s, event), e);
    case Call(e) => CallKeepsOrder(s, e);
  }

  ghost predicate MayRun<T>(s: State<T>, events: seq<Event<T>>)
    requires Consistent(s)
    decreases |events|
  {
    events == [] ||
    (MayHappen(s, events[0]) &&
     (NextIsConsistent(s, events[0]);
      MayRun(Next(s, events[0]), events[1..])))
  }

  ghost function Run<T>(s: State<T>, events: seq<Event<T>>): (r: State<T>)
    requires Consistent(s) && MayRun(s, events)
    ensures Consistent(r)
    decreases |events|
  {
    if events == [] then s else
      NextIsConsistent(s, events[0]);
      Run(Next(s, events[0]), events[1..])
  }

  ghost function Start<T>(): (s: State<T>)
    ensures Consistent(s)
  {
    State(map[], map[])
  }

  lemma {:induction false} RunKeepsOrder<T>(s: State<T>, events: seq<Event<T>>)
    requires Ordered(s) && MayRun(s, events)
    ensures Ordered(Run(s, events))
    decreases |events|
  {
    if events != [] {
      NextKeepsOrder(s, events[0]);
      RunKeepsOrder(Next(s, events[0]), events[1..]);
    }
  }

  /** Wherever a program's declarations and mock calls have led, the expectations are ordered. */
  lemma {:induction false} EveryRunIsOrdered<T>(events: seq<Event<T>>)
    requires MayRun(Start(), events)
    ensures Ordered(Run(Start(), events))
  {
    RunKeepsOrder(Start(), events);
  }

  // ---------------------------------------------------------------- prerequisites come first, for good

  /** t's calls to e's prerequisites, and e's prerequisites themselves, are those of s. */
  ghost predicate Frozen<T>(s: State<T>, t: State<T>, e: T)
    requires WellFormed(s.graph) && WellFormed(t.graph)
  {
    && e in t.status && t.status[e].calls > 0
    && Transitive(t.graph, e) == Transitive(s.graph, e)
    && forall p :: p in Transitive(s.graph, e) ==>
      && p in t.status && t.status[p].retired
      && p in s.status && t.status[p].calls == s.status[p].calls
  }

  lemma {:induction false} NextKeepsFrozen<T>(s: State<T>, t: State<T>, e: T, event: Event<T>)
    requires Consistent(s) && Consistent(t) && Frozen(s, t, e) && MayHappen(t, event)
    ensures Consistent(Next(t, event)) && Frozen(s, Next(t, event), e)
  {
    NextIsConsistent(t, event);
    match event
    case Declare(d, _, _, _) =>
      DeclareGrows(t, event);
      NewestNodeGainsPrerequisites(t.graph, Next(t, event).graph, d);
    case After(d, _) =>
      AfterGrows(t, event);
      NewestNodeGainsPrerequisites(t.graph, Next(t, event).graph, d);
      NewestIsNobodysPrerequisite(t.graph, Next(t, event).graph, d, e);
    case Call(d) => HandleCountsOnce(t, d);
  }

  lemma {:induction false} RunKeepsFrozen<T>(s: State<T>, t: State<T>, e: T, events: seq<Event<T>>)
    requires Consistent(s) && Consistent(t) && Frozen(s, t, e) && MayRun(t, events)
    ensures Frozen(s, Run(t, events), e)
    decreases |events|
  {
    if events != [] {
      NextKeepsFrozen(s, t, e, events[0]);
      RunKeepsFrozen(s, Next(t, events[0]), e, events[1..]);
    }
  }

  /** Once an expectation that allows calls has taken one, no prerequisite of it takes another,
      however the program goes on. */
  lemma {:induction false} PrerequisitesAreOver<T>(s: State<T>, e: T, events: seq<Event<T>>)
    requires Ordered(s) && e in s.graph && s.status[e].calls > 0 && s.status[e].most > 0
    requires MayRun(s, events)
    ensures Frozen(s, Run(s, events), e)
  {
    assert Settled(s, e);
    RunKeepsFrozen(s, s, e, events);
  }

  /** Taking a call leaves all prerequisites retired unless the expectation allows no call at all. */
  lemma {:induction false} CallRetiresPrerequisitesIff<T>(s: State<T>, e: T)
    requires Ordered(s) && e in s.graph && CanHandle(s, e)
    ensures Transitive(s.graph, e) <= RetiredSet(Handle(s, e).status)
      <==> s.status[e].most > 0 || Transitive(s.graph, e) <= RetiredSet(s.status)
  {
    if !s.status[e].Saturated() {
      HandleRetires(s, e);
    } else if s.status[e].most > 0 {
      assert Settled(s, e);
      forall p | p in Transitive(s.graph, e)
        ensures p in RetiredSet(Handle(s, e).status)
      {
        assert s.status[p].retired;
      }
    } else {
      assert RetiredSet(Handle(s, e).status) == RetiredSet(s.status);
    }
  }

  /** An expectation declared with no call allowed does not hold its prerequisites back: here 1
      takes a call and then its prerequisite 0 does. */
  lemma {:induction false} ForbiddenCallFreezesNothing()
    ensures var before := [Declare(0, 0, 1, false), Declare(1, 0, 0, false), After(1, 0), Call(1)];
      && MayRun(Start(), before)
      && var s := Run(Start(), before);
      && s.status[1].calls == 1 && 0 in Transitive(s.graph, 1)
      && MayHappen(s, Call(0)) && Next(s, Call(0)).status[0].calls == s.status[0].calls + 1
  {
  }

  // ---------------------------------------------------------------- explaining why a call is not handled

  /** The prerequisites looked into: e's own, and those of a satisfied node nobody has called. */
  ghost function Explored<T>(s: State<T>, e: T): (h: Graph<T>)
    requires Consistent(s)
    ensures WellFormed(h) && Subgraph(h, s.graph)
  {
    map n | n in s.graph :: if n == e || Transparent(s.status[n]) then s.graph[n] else []
  }

  predicate Transparent(status: Status) {
    status.Satisfied() && status.calls == 0
  }

  ghost function Unsatisfied<T>(s: State<T>, who: set<T>): set<T> {
    set n | n in who && n in s.status && !s.status[n].Satisfied()
  }

  /** What is reported as unsatisfied when e does not take a call. */
  ghost function Diagnosis<T>(s: State<T>, e: T): set<T>
    requires Consistent(s) && e in s.graph
  {
    Unsatisfied(s, Transitive(Explored(s, e), e))
  }

  /** m and all it depends on are satisfied. */
  ghost predicate Sound<T>(s: State<T>, m: T)
    requires Consistent(s)
  {
    m in s.status && s.status[m].Satisfied() && AllSatisfied(s.status, Transitive(s.graph, m))
  }

  lemma {:induction false} SoundIsInherited<T>(s: State<T>, m: T, p: T)
    requires Consistent(s) && Sound(s, m) && p in s.graph[m]
    ensures Sound(s, p)
  {
    TransitiveOfPrerequisite(s.graph, m, p);
  }

  /** A node that was looked at has satisfied prerequisites only, if none was reported. */
  lemma {:induction false} NothingReportedBelow<T>(s: State<T>, e: T, n: T, p: T)
    requires Ordered(s) && e in s.graph && Diagnosis(s, e) == {}
    requires n in Transitive(Explored(s, e), e) && n != e && p in s.graph[n]
    ensures p in Transitive(Explored(s, e), e) || Sound(s, p)
  {
    var h := Explored(s, e);
    assert n !in Diagnosis(s, e);
    assert s.status[n].Satisfied();
    if Transparent(s.status[n]) {
      assert p in h[n];
    } else {
      assert Settled(s, n);
      assert Sound(s, n);
      SoundIsInherited(s, n, p);
    }
  }

  /** The explanation is empty exactly when there is nothing to explain, although it does not look
      behind a satisfied prerequisite that has been called. */
  lemma {:induction false} DiagnosisIsComplete<T>(s: State<T>, e: T)
    requires Ordered(s) && e in s.graph
    ensures Diagnosis(s, e) <= Unsatisfied(s, Transitive(s.graph, e))
    ensures Diagnosis(s, e) == {} <==> AllSatisfied(s.status, Transitive(s.graph, e))
  {
    var h := Explored(s, e);
    SubgraphReachesFewer(h, s.graph, e);
    SubgraphIsAcyclic(h, s.graph);
    if Diagnosis(s, e) == {} {
      var c := set m | m in s.graph && (m in Transitive(h, e) || Sound(s, m));
      forall n, p | n in c && p in s.graph[n]
        ensures p in c
      {
        if n in Transitive(h, e) {
          NothingReportedBelow(s, e, n, p);
        } else {
          SoundIsInherited(s, n, p);
        }
      }
      TransitiveIsLeast(s.graph, e, c);
      forall m | m in Transitive(s.graph, e)
        ensures s.status[m].Satisfied()
      {
        assert m !in Diagnosis(s, e);
      }
    } else {
      var m :| m in Diagnosis(s, e);
    }
  }
}
