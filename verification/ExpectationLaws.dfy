/**
  What the events of the expectation model mean, said in terms of paths, counts and bounds only.
 */
module ExpectationLaws {
  import opened PrerequisiteGraphs
  import opened ExpectationModel

  ghost predicate WithinBounds(status: Status) {
    status.least <= status.calls && status.calls <= status.most
  }

  // ---------------------------------------------------------------- who takes a call

  /** An expectation takes calls exactly if it is active and every expectation at the end of a path of prerequisites
      has been called at least as often as it has to and at most as often as it may. */
  lemma {:induction false} CanHandleIff<T>(s: State<T>, e: T)
    requires Consistent(s) && e in s.graph
    ensures CanHandle(s, e) <==>
      !s.status[e].retired &&
      forall n, path :: n in s.status && Leads(s.graph, path, e, n) ==> WithinBounds(s.status[n])
  {
    forall n, path | n in s.status && Leads(s.graph, path, e, n)
      ensures n in Transitive(s.graph, e)
    {
      TransitiveIffPath(s.graph, e, n);
    }
    forall n | n in Transitive(s.graph, e)
      ensures exists path :: Leads(s.graph, path, e, n)
    {
      TransitiveIffPath(s.graph, e, n);
    }
  }

  /** A prerequisite that still has to be called holds back everyone that depends on it. */
  lemma {:induction false} UncalledPrerequisiteBlocks<T>(s: State<T>, e: T, n: T, path: seq<T>)
    requires Consistent(s) && e in s.graph && n in s.status && Leads(s.graph, path, e, n)
    requires s.status[n].calls < s.status[n].least
    ensures !CanHandle(s, e)
  {
    CanHandleIff(s, e);
    assert !WithinBounds(s.status[n]);
  }

  // ---------------------------------------------------------------- what a call does

  /** The whole effect of a call: it is counted once; unless the cardinality was used up before, everything at the end
      of a path of prerequisites is retired, and the expectation itself exactly if it retires on saturation and this
      was the last call allowed. */
  lemma {:induction false} CallEffects<T>(s: State<T>, e: T, n: T)
    requires Consistent(s) && e in s.graph && CanHandle(s, e) && n in s.status
    ensures var before, r := s.status, Handle(s, e);
      && r.graph == s.graph && r.status.Keys == before.Keys
      && r.status[n].least == before[n].least && r.status[n].most == before[n].most
      && r.status[n].retiresOnSaturation == before[n].retiresOnSaturation
      && r.status[n].calls == before[n].calls + (if n == e then 1 else 0)
      && (r.status[n].retired <==>
            if n == e then before[e].retiresOnSaturation && before[e].calls + 1 == before[e].most
            else before[n].retired ||
                 (before[e].calls < before[e].most && exists path :: Leads(s.graph, path, e, n)))
  {
    TransitiveIffPath(s.graph, e, n);
    TransitiveIffPath(s.graph, e, e);
    if s.status[e].Saturated() {
      CountedStatus(s, e, n);
    } else {
      var c := Counted(s, e);
      CountedStatus(s, e, n);
      CountedStatus(s, e, e);
      RetiredStatus(c, e, n);
      RetiredStatus(c, e, e);
    }
  }

  lemma {:induction false} CountedStatus<T>(s: State<T>, e: T, n: T)
    requires Consistent(s) && e in s.graph && n in s.status
    ensures Counted(s, e).status[n] == s.status[n].(calls := s.status[n].calls + (if n == e then 1 else 0))
  {
  }

  lemma {:induction false} RetiredStatus<T>(s: State<T>, e: T, n: T)
    requires Consistent(s) && e in s.graph && n in s.status && !s.status[e].retired
    ensures RetirePrerequisites(s, e).status[n]
         == s.status[n].(retired := s.status[n].retired || n in Transitive(s.graph, e))
  {
  }

  // ---------------------------------------------------------------- retiring on saturation, over runs

  /** An expectation that retires on saturation is called at most as often as it may, and retired by then. */
  ghost predicate StaysWithin(status: Status) {
    status.retiresOnSaturation && status.most > 0 ==>
      status.calls <= status.most && (status.calls == status.most ==> status.retired)
  }

  ghost predicate AllStayWithin<T>(s: State<T>) {
    forall e :: e in s.status ==> StaysWithin(s.status[e])
  }

  lemma {:induction false} NextStaysWithin<T>(s: State<T>, event: Event<T>)
    requires Consistent(s) && MayHappen(s, event) && AllStayWithin(s)
    ensures AllStayWithin(Next(s, event))
  {
    var t := Next(s, event);
    forall n | n in t.status
      ensures StaysWithin(t.status[n])
    {
      match event
      case Declare(_, _, _, _) =>
        assert n in s.status ==> StaysWithin(s.status[n]);
      case After(_, _) =>
        assert StaysWithin(s.status[n]);
      case Call(e) =>
        HandleCountsOnce(s, e);
        assert StaysWithin(s.status[n]) && StaysWithin(s.status[e]);
        CallEffects(s, e, n);
    }
  }

  lemma {:induction false} RunStaysWithin<T>(s: State<T>, events: seq<Event<T>>)
    requires Consistent(s) && MayRun(s, events) && AllStayWithin(s)
    ensures AllStayWithin(Run(s, events))
    decreases |events|
  {
    if events != [] {
      NextIsConsistent(s, events[0]);
      NextStaysWithin(s, events[0]);
      RunStaysWithin(Next(s, events[0]), events[1..]);
    }
  }

  /** Over every run, an expectation that allows calls and retires on saturation never takes an excessive one. */
  lemma {:induction false} SaturatedIsNeverExceeded<T>(events: seq<Event<T>>, e: T)
    requires MayRun(Start(), events) && e in Run(Start(), events).status
    requires Run(Start(), events).status[e].retiresOnSaturation && Run(Start(), events).status[e].most > 0
    ensures var status := Run(Start(), events).status[e];
      status.calls <= status.most && (status.calls == status.most ==> status.retired)
  {
    RunStaysWithin(Start(), events);
    assert StaysWithin(Run(Start(), events).status[e]);
  }

  // ---------------------------------------------------------------- what a declaration and a clause do

  lemma {:induction false} NoPrerequisites<T>(g: Graph<T>, e: T)
    requires WellFormed(g) && e in g && g[e] == []
    ensures Transitive(g, e) == {}
  {
    TransitiveIsLeast(g, e, {});
  }

  /** A declared expectation has the given bounds, no calls and no prerequisites; the others are as they were. */
  lemma {:induction false} DeclareMeaning<T>(s: State<T>, e: T, least: nat, most: nat, retires: bool, n: T)
    requires Consistent(s) && e !in s.graph && n in s.graph
    ensures var t := Next(s, Declare(e, least, most, retires));
      && Consistent(t) && t.graph.Keys == s.graph.Keys + {e}
      && t.status[e].least == least && t.status[e].most == most && t.status[e].retiresOnSaturation == retires
      && t.status[e].calls == 0 && !t.status[e].retired && Transitive(t.graph, e) == {}
      && t.status[n] == s.status[n] && Transitive(t.graph, n) == Transitive(s.graph, n)
  {
    var event := Declare(e, least, most, retires);
    var t := Next(s, event);
    DeclareGrows(s, event);
    NewestNodeGainsPrerequisites(s.graph, t.graph, e);
    NoPrerequisites(t.graph, e);
  }

  /** A clause gives the expectation the prerequisite with all that this depends on, and changes nothing else. */
  lemma {:induction false} AfterMeaning<T>(s: State<T>, e: T, p: T, n: T)
    requires Consistent(s) && MayHappen(s, After(e, p)) && n in s.graph
    ensures var t := Next(s, After(e, p));
      && Consistent(t) && t.status == s.status
      && Transitive(t.graph, n)
         == if n == e then Transitive(s.graph, e) + {p} + Transitive(s.graph, p) else Transitive(s.graph, n)
  {
    var event := After(e, p);
    var t := Next(s, event);
    AfterGrows(s, event);
    NextIsConsistent(s, event);
    NewestNodeGainsPrerequisites(s.graph, t.graph, e);
    if n == e {
      NewestGains(s.graph, t.graph, e, p);
    }
  }

  lemma {:induction false} NewestGains<T>(g: Graph<T>, h: Graph<T>, e: T, p: T)
    requires WellFormed(g) && Acyclic(g) && WellFormed(h) && Gains(g, h, e) && e in g && p in g && p != e
    requires h[e] == if p in g[e] then g[e] else g[e] + [p]
    requires Transitive(h, p) == Transitive(g, p)
    ensures Transitive(h, e) == Transitive(g, e) + {p} + Transitive(g, p)
  {
    var all := Transitive(g, e) + {p} + Transitive(g, p);
    NewestIsNobodysPrerequisite(g, h, e, e);
    NewestIsNobodysPrerequisite(g, h, e, p);
    assert e !in all;
    assert Closed(g, all);
    ClosedInBoth(g, h, e, all);
    TransitiveIsLeast(h, e, all);
    var found := Transitive(h, e);
    ClosedInBoth(g, h, e, found);
    TransitiveIsLeast(g, e, found);
    TransitiveOfPrerequisite(h, e, p);
  }

  // ---------------------------------------------------------------- what is reported

  /** A path all of whose inner nodes are satisfied although nobody has called them. */
  ghost predicate SeenThrough<T>(s: State<T>, path: seq<T>) {
    forall i :: 0 < i < |path| - 1 ==>
      path[i] in s.status && WithinBounds(s.status[path[i]]) && s.status[path[i]].calls == 0
  }

  /** Exactly those are reported whose count is out of bounds and which such a path leads to. */
  lemma {:induction false} DiagnosisIff<T>(s: State<T>, e: T, n: T)
    requires Consistent(s) && e in s.graph && n in s.status
    ensures n in Diagnosis(s, e) <==>
      !WithinBounds(s.status[n]) && exists path :: Leads(s.graph, path, e, n) && SeenThrough(s, path)
  {
    var h := Explored(s, e);
    TransitiveIffPath(h, e, n);
    SubgraphIsAcyclic(h, s.graph);
    forall path | Leads(h, path, e, n)
      ensures Leads(s.graph, path, e, n) && SeenThrough(s, path)
    {
      ExploredPathIsSeenThrough(s, e, h, path, n);
    }
    forall path | Leads(s.graph, path, e, n) && SeenThrough(s, path)
      ensures Leads(h, path, e, n)
    {
      SeenThroughIsExplored(s, e, h, path, n);
    }
  }

  lemma {:induction false} ExploredPathIsSeenThrough<T>(s: State<T>, e: T, h: Graph<T>, path: seq<T>, n: T)
    requires Consistent(s) && e in s.graph && h == Explored(s, e) && Acyclic(h) && Leads(h, path, e, n)
    ensures Leads(s.graph, path, e, n) && SeenThrough(s, path)
  {
    forall i | 0 <= i < |path| - 1
      ensures path[i] in s.graph && path[i + 1] in s.graph[path[i]]
      ensures i > 0 ==> WithinBounds(s.status[path[i]]) && s.status[path[i]].calls == 0
    {
      assert path[i] in h && path[i + 1] in h[path[i]];
      if i > 0 {
        PathStaysInside(h, path, e, i);
        assert path[i] != e;
      }
    }
  }

  lemma {:induction false} SeenThroughIsExplored<T>(s: State<T>, e: T, h: Graph<T>, path: seq<T>, n: T)
    requires Consistent(s) && e in s.graph && h == Explored(s, e)
    requires Leads(s.graph, path, e, n) && SeenThrough(s, path)
    ensures Leads(h, path, e, n)
  {
    forall i | 0 <= i < |path| - 1
      ensures path[i] in h && path[i + 1] in h[path[i]]
    {
      assert path[i] in s.graph && path[i + 1] in s.graph[path[i]];
    }
  }
}
