/**
  Expectations as the objects a mocked program works on.
 */
module Expectations {
  import opened PrerequisiteGraphs
  import opened ExpectationModel

  class Expectation {
    const least: nat
    const most: nat
    const retiresOnSaturation: bool
    var prerequisites: seq<Expectation>
    var callCount: nat
    var retired: bool

    ghost function StatusNow(): Status
      reads this
    {
      Status(least, most, retiresOnSaturation, callCount, retired)
    }

    predicate IsSatisfied()
      reads this
    {
      least <= callCount <= most
    }

    predicate IsSaturated()
      reads this
    {
      callCount >= most
    }

    constructor (least: nat, most: nat, retiresOnSaturation: bool, ghost s: State<Expectation>)
      requires Shows(s) && Consistent(s)
      ensures fresh(this) && this !in s.graph
      ensures Shows(Next(s, Declare(this, least, most, retiresOnSaturation)))
    {
      this.least, this.most, this.retiresOnSaturation := least, most, retiresOnSaturation;
      prerequisites, callCount, retired := [], 0, false;
    }

    /** The After clause, for one prerequisite. */
    method AddPrerequisite(other: Expectation, ghost s: State<Expectation>)
      requires Consistent(s) && Shows(s) && MayHappen(s, After(this, other))
      modifies this`prerequisites
      ensures Shows(Next(s, After(this, other)))
    {
      if other !in prerequisites {
        prerequisites := prerequisites + [other];
      }
    }

    /** Retires the immediate prerequisites of this and pushes those that were not retired; all of
        them are in t, the transitive prerequisites of start. */
    method RetireImmediatePreRequisites(expectations: seq<Expectation>, ghost g: Graph<Expectation>,
                                        ghost r: set<Expectation>, ghost start: Expectation,
                                        ghost t: set<Expectation>)
      returns (pushed: seq<Expectation>, ghost r': set<Expectation>)
      requires HaveRetired(g, r) && this in g && start in g
      requires t <= g.Keys && AllIn(g[this], t) && AllIn(expectations, t + {start})
      requires Swept(g, r + {start}, expectations, {this})
      modifies g.Keys`retired
      ensures HaveRetired(g, r') && r <= r' <= r + t
      ensures AllIn(pushed, t + {start})
      ensures if r' == r then pushed == expectations else t - r' < t - r
      ensures Swept(g, r' + {start}, pushed, {})
    {
      pushed, r' := expectations, r;
      var i := 0;
      while i < |prerequisites|
        invariant 0 <= i <= |prerequisites|
        invariant HaveRetired(g, r') && r <= r' <= r + t
        invariant AllIn(pushed, t + {start})
        invariant r' == r ==> pushed == expectations
        invariant Swept(g, r' + {start}, pushed, {this})
        invariant AllIn(g[this][..i], r')
      {
        var next := prerequisites[i];
        if !next.retired {
          next.retired := true;
          SweptPush(g, r' + {start}, pushed, {this}, next);
          AllInPush(pushed, t + {start}, next);
          assert r' + {start} + {next} == r' + {next} + {start};
          pushed, r' := pushed + [next], r' + {next};
        }
        AllInStep(g[this], i, r');
        i := i + 1;
      }
      assert g[this][..i] == g[this];
      SweptWhole(g, r' + {start}, pushed, this);
      if r' != r {
        LessToRetire(r, r', t);
      }
    }

    /** Retires the unretired transitive prerequisites of this, and nothing else. */
    method RetireAllPreRequisites(ghost s: State<Expectation>)
      requires Consistent(s) && Shows(s) && this in s.graph
      requires Closed(s.graph, RetiredSet(s.status))
      modifies s.graph.Keys`retired
      ensures Shows(RetirePrerequisites(s, this))
    {
      if retired {
        return;
      }
      ghost var g, t, r0 := s.graph, Transitive(s.graph, this), RetiredSet(s.status);
      ghost var r := r0;
      var expectations := [this];
      while expectations != []
        invariant HaveRetired(g, r) && r0 <= r <= r0 + t
        invariant AllIn(expectations, t + {this})
        invariant Swept(g, r + {this}, expectations, {})
        decreases t - r, |expectations|
      {
        var exp := expectations[|expectations| - 1];
        StackTop(g, this, expectations, t);
        SweptPop(g, r + {this}, expectations[..|expectations| - 1], exp);
        expectations := expectations[..|expectations| - 1];
        expectations, r := exp.RetireImmediatePreRequisites(expectations, g, r, this, t);
      }
      SweptIsClosed(g, r + {this}, this);
      RetiredExactly(s, this, r);
    }

    /** Pushes the immediate prerequisites of this, up to the first that is not satisfied; all of
        them are in t, the transitive prerequisites of start. */
    method PushSatisfied(expectations: seq<Expectation>, ghost s: State<Expectation>,
                         ghost p: set<Expectation>, ghost start: Expectation, ghost t: set<Expectation>)
      returns (ok: bool, pushed: seq<Expectation>, ghost p': set<Expectation>)
      requires Consistent(s) && Shows(s) && this in s.graph && start in s.graph
      requires t <= s.graph.Keys && AllIn(s.graph[this], t) && AllIn(expectations, t + {start})
      requires p <= t && AllSatisfied(s.status, p)
      requires Swept(s.graph, p + {start}, expectations, {this})
      ensures !ok ==> !AllSatisfied(s.status, t)
      ensures ok ==> p' <= t && AllSatisfied(s.status, p')
      ensures ok ==> AllIn(pushed, t + {start}) && Swept(s.graph, p' + {start}, pushed, {})
      ensures ok ==> AllIn(pushed, s.graph.Keys) && AllIn(expectations, s.graph.Keys)
      ensures ok ==> Weight(s.graph, pushed) == Weight(s.graph, expectations) + Weight(s.graph, s.graph[this])
    {
      ghost var g := s.graph;
      pushed, p' := expectations, p;
      AllInLarger(expectations, t + {start}, g.Keys);
      var i := 0;
      while i < |prerequisites|
        invariant 0 <= i <= |prerequisites|
        invariant p <= p' <= t && AllSatisfied(s.status, p')
        invariant AllIn(pushed, t + {start}) && AllIn(pushed, g.Keys)
        invariant Swept(g, p' + {start}, pushed, {this})
        invariant AllIn(g[this][..i], p')
        invariant Weight(g, pushed) == Weight(g, expectations) + Weight(g, g[this][..i])
      {
        var next := prerequisites[i];
        assert next in g[this];
        if !next.IsSatisfied() {
          assert !s.status[next].Satisfied();
          ok := false;
          return;
        }
        SweptPush(g, p' + {start}, pushed, {this}, next);
        AllInPush(pushed, t + {start}, next);
        AllInPush(pushed, g.Keys, next);
        assert p' + {start} + {next} == p' + {next} + {start};
        WeightOfPush(g, pushed, next);
        WeightOfStep(g, g[this], i);
        pushed, p' := pushed + [next], p' + {next};
        AllInStep(g[this], i, p');
        i := i + 1;
      }
      assert g[this][..i] == g[this];
      SweptWhole(g, p' + {start}, pushed, this);
      ok := true;
    }

    /** Although no visited nodes are remembered, this ends: the stack stands for fewer and fewer paths. */
    method AllPrerequisitesAreSatisfied(ghost s: State<Expectation>) returns (ok: bool)
      requires Consistent(s) && Shows(s) && this in s.graph
      ensures ok == AllSatisfied(s.status, Transitive(s.graph, this))
    {
      ghost var g, t := s.graph, Transitive(s.graph, this);
      ghost var p: set<Expectation> := {};
      var expectations := [this];
      while expectations != []
        invariant p <= t && AllSatisfied(s.status, p)
        invariant AllIn(expectations, t + {this}) && AllIn(expectations, g.Keys)
        invariant Swept(g, p + {this}, expectations, {})
        decreases Weight(g, expectations)
      {
        var exp := expectations[|expectations| - 1];
        StackTop(g, this, expectations, t);
        SweptPop(g, p + {this}, expectations[..|expectations| - 1], exp);
        WeightOfPop(g, expectations[..|expectations| - 1], exp);
        expectations := expectations[..|expectations| - 1];
        ok, expectations, p := exp.PushSatisfied(expectations, s, p, this, t);
        if !ok {
          return;
        }
      }
      SweptIsClosed(g, p + {this}, this);
      ok := true;
    }

    /** Pushes those immediate prerequisites of this that are satisfied and were never called, and
        reports those that are not satisfied. */
    method PushTransparent(expectations: seq<Expectation>, reported: set<Expectation>, ghost s: State<Expectation>,
                           ghost h: Graph<Expectation>, ghost p: set<Expectation>, ghost start: Expectation,
                           ghost t: set<Expectation>, ghost base: set<Expectation>)
      returns (pushed: seq<Expectation>, result: set<Expectation>, ghost p': set<Expectation>)
      requires Consistent(s) && Shows(s) && start in s.graph && h == Explored(s, start)
      requires this in h && h[this] == s.graph[this] && start !in t
      requires t <= h.Keys && AllIn(h[this], t) && AllIn(expectations, t + {start}) && Unpruned(s, h, expectations)
      requires p <= t && Swept(h, p + {start}, expectations, {this})
      requires Reports(s, base, p, reported)
      ensures p <= p' <= t && AllIn(pushed, t + {start}) && Unpruned(s, h, pushed)
      ensures Reports(s, base, p', result)
      ensures Swept(h, p' + {start}, pushed, {})
      ensures AllIn(pushed, s.graph.Keys) && AllIn(expectations, s.graph.Keys)
      ensures Weight(s.graph, pushed) <= Weight(s.graph, expectations) + Weight(s.graph, s.graph[this])
    {
      ghost var g := s.graph;
      pushed, result, p' := expectations, reported, p;
      AllInLarger(expectations, t + {start}, g.Keys);
      var i := 0;
      while i < |prerequisites|
        invariant 0 <= i <= |prerequisites|
        invariant p <= p' && Searching(s, h, this, start, t, base, p', pushed, result)
        invariant AllIn(pushed, g.Keys) && AllIn(g[this][..i], p') && AllIn(g[this][..i], g.Keys)
        invariant Weight(g, pushed) <= Weight(g, expectations) + Weight(g, g[this][..i])
      {
        var next := prerequisites[i];
        assert next in h[this] && next in t && next != start;
        assert s.status[next] == next.StatusNow();
        ghost var stack', result' := SearchStep(s, h, this, start, t, base, p', pushed, result, next);
        WeightOfStep(g, g[this], i);
        if next.IsSatisfied() {
          if next.callCount == 0 {
            AllInPush(pushed, g.Keys, next);
            WeightOfPush(g, pushed, next);
            pushed := pushed + [next];
          }
        } else {
          result := result + {next};
        }
        assert pushed == stack' && result == result';
        p' := p' + {next};
        AllInStep(g[this], i, p');
        i := i + 1;
      }
      assert g[this][..i] == g[this];
      SweptWhole(h, p' + {start}, pushed, this);
    }

    /** Adds to what was reported the unsatisfied prerequisites that can be reached without passing
        an unsatisfied one or one that has been called. */
    method FindUnsatisfiedPrerequisites(reported: set<Expectation>, ghost s: State<Expectation>)
      returns (result: set<Expectation>)
      requires Consistent(s) && Shows(s) && this in s.graph
      ensures result == reported + Diagnosis(s, this)
    {
      ghost var g, h := s.graph, Explored(s, this);
      SubgraphIsAcyclic(h, g);
      ghost var t := Transitive(h, this);
      ghost var p: set<Expectation> := {};
      var expectations := [this];
      result := reported;
      assert Unsatisfied(s, p) == {};
      while expectations != []
        invariant p <= t && Reports(s, reported, p, result)
        invariant AllIn(expectations, t + {this}) && AllIn(expectations, g.Keys) && Unpruned(s, h, expectations)
        invariant Swept(h, p + {this}, expectations, {})
        decreases Weight(g, expectations)
      {
        var exp := expectations[|expectations| - 1];
        StackTop(h, this, expectations, t);
        SweptPop(h, p + {this}, expectations[..|expectations| - 1], exp);
        WeightOfPop(g, expectations[..|expectations| - 1], exp);
        expectations := expectations[..|expectations| - 1];
        expectations, result, p := exp.PushTransparent(expectations, result, s, h, p, this, t, reported);
      }
      SweptIsClosed(h, p + {this}, this);
      assert p == t;
    }

    /** matches tells whether the arguments match. */
    method ShouldHandleArguments(matches: bool, ghost s: State<Expectation>) returns (r: bool)
      requires Consistent(s) && Shows(s) && this in s.graph
      ensures r == (CanHandle(s, this) && matches)
    {
      if retired {
        return false;
      }
      var satisfied := AllPrerequisitesAreSatisfied(s);
      return satisfied && matches;
    }

    method IncrementCallCount(ghost s: State<Expectation>)
      requires Consistent(s) && Shows(s) && this in s.graph
      modifies this`callCount
      ensures Shows(Counted(s, this))
    {
      callCount := callCount + 1;
    }

    method Retire(ghost s: State<Expectation>)
      requires Consistent(s) && Shows(s) && this in s.graph
      modifies this`retired
      ensures Shows(s.(status := RetireAll(s.status, {this})))
    {
      retired := true;
    }

    method RetireIfSaturated(ghost s: State<Expectation>)
      requires Consistent(s) && Shows(s) && this in s.graph
      modifies this`retired
      ensures Shows(ExpectationModel.RetireIfSaturated(s, this))
    {
      assert s.status[this] == StatusNow();
      if retiresOnSaturation && IsSaturated() {
        Retire(s);
      }
    }

    /** Takes a call; excessive if the cardinality was used up before. */
    method GetActionForArguments(ghost s: State<Expectation>) returns (excessive: bool)
      requires Consistent(s) && Shows(s) && this in s.graph
      requires Closed(s.graph, RetiredSet(s.status))
      modifies s.graph.Keys`retired, this`callCount
      ensures Shows(Handle(s, this))
      ensures excessive == (old(callCount) >= most)
    {
      ghost var s1 := Counted(s, this);
      if IsSaturated() {
        IncrementCallCount(s);
        return true;
      }
      IncrementCallCount(s);
      assert RetiredSet(s1.status) == RetiredSet(s.status);
      RetireAllPreRequisites(s1);
      RetireIfSaturated(RetirePrerequisites(s1, this));
      return false;
    }
  }

  /** The nodes on the stack have kept all their prerequisites in h. */
  ghost predicate Unpruned(s: State<Expectation>, h: Graph<Expectation>, l: seq<Expectation>) {
    forall n :: n in l && n in h && n in s.graph ==> h[n] == s.graph[n]
  }

  /** The unsatisfied among p have been added to base. */
  ghost predicate Reports(s: State<Expectation>, base: set<Expectation>, p: set<Expectation>,
                          result: set<Expectation>) {
    result == base + Unsatisfied(s, p)
  }

  lemma {:induction false} ReportsStep(s: State<Expectation>, base: set<Expectation>, p: set<Expectation>,
                                       result: set<Expectation>, n: Expectation)
    requires n in s.status && Reports(s, base, p, result)
    ensures if s.status[n].Satisfied() then Reports(s, base, p + {n}, result)
            else Reports(s, base, p + {n}, result + {n})
  {
    assert Unsatisfied(s, p + {n}) == Unsatisfied(s, p) + (if s.status[n].Satisfied() then {} else {n});
  }

  lemma {:induction false} UnprunedPush(s: State<Expectation>, h: Graph<Expectation>, l: seq<Expectation>,
                                        n: Expectation)
    requires Unpruned(s, h, l) && n in h && n in s.graph && h[n] == s.graph[n]
    ensures Unpruned(s, h, l + [n])
  {
  }

  /** The state of the search while the prerequisites of node are gone through. */
  ghost predicate Searching(s: State<Expectation>, h: Graph<Expectation>, node: Expectation, start: Expectation,
                            t: set<Expectation>, base: set<Expectation>, p: set<Expectation>,
                            stack: seq<Expectation>, result: set<Expectation>) {
    && p <= t && AllIn(stack, t + {start}) && Unpruned(s, h, stack)
    && Reports(s, base, p, result) && Swept(h, p + {start}, stack, {node})
  }

  lemma {:induction false} SearchStep(s: State<Expectation>, h: Graph<Expectation>, node: Expectation,
                                      start: Expectation, t: set<Expectation>, base: set<Expectation>,
                                      p: set<Expectation>, stack: seq<Expectation>, result: set<Expectation>,
                                      next: Expectation)
    returns (stack': seq<Expectation>, result': set<Expectation>)
    requires Consistent(s) && start in s.graph && h == Explored(s, start)
    requires Searching(s, h, node, start, t, base, p, stack, result)
    requires next in t && next in s.graph && next != start
    ensures stack' == if Transparent(s.status[next]) then stack + [next] else stack
    ensures result' == if s.status[next].Satisfied() then result else result + {next}
    ensures Searching(s, h, node, start, t, base, p + {next}, stack', result')
  {
    stack' := if Transparent(s.status[next]) then stack + [next] else stack;
    result' := if s.status[next].Satisfied() then result else result + {next};
    assert p + {start} + {next} == p + {next} + {start};
    ReportsStep(s, base, p, result, next);
    if Transparent(s.status[next]) {
      SweptPush(h, p + {start}, stack, {node}, next);
      AllInPush(stack, t + {start}, next);
      UnprunedPush(s, h, stack, next);
    } else {
      SweptLeaf(h, p + {start}, stack, {node}, next);
    }
  }

  /** Retiring something more leaves less of t to retire. */
  lemma {:induction false} LessToRetire<T>(r: set<T>, r': set<T>, t: set<T>)
    requires r <= r' <= r + t && r' != r
    ensures t - r' < t - r
  {
    assert exists x :: x in r' && x !in r;
  }

  /** The top of the stack and what lies below it. */
  lemma {:induction false} StackTop<T>(g: Graph<T>, start: T, l: seq<T>, t: set<T>)
    requires WellFormed(g) && start in g && t == Transitive(g, start)
    requires l != [] && AllIn(l, t + {start})
    ensures l == l[..|l| - 1] + [l[|l| - 1]] && AllIn(l[..|l| - 1], t + {start})
    ensures l[|l| - 1] in g && AllIn(g[l[|l| - 1]], t)
  {
    assert l[|l| - 1] in l;
  }

  lemma {:induction false} RetiredExactly(s: State<Expectation>, e: Expectation, r: set<Expectation>)
    requires Consistent(s) && e in s.graph && !s.status[e].retired
    requires s.graph.Keys == s.status.Keys && HaveRetired(s.graph, r)
    requires r == RetiredSet(s.status) + Transitive(s.graph, e)
    requires forall n :: n in s.graph ==> n.StatusNow() == s.status[n].(retired := n.retired)
    ensures Shows(RetirePrerequisites(s, e))
  {
  }

  /** The nodes in r are those that are retired by now. */
  ghost predicate HaveRetired(g: Graph<Expectation>, r: set<Expectation>)
    reads g.Keys`retired, g.Keys`prerequisites
  {
    forall e :: e in g ==> e.prerequisites == g[e] && e.retired == (e in r)
  }

  /** The most recently declared expectation of a mock function that takes the call. */
  method FindMatchingExpectation(expectations: seq<Expectation>, matches: seq<bool>, ghost s: State<Expectation>)
    returns (exp: Expectation?)
    requires Consistent(s) && Shows(s) && AllIn(expectations, s.graph.Keys) && |matches| == |expectations|
    ensures exp == null ==> forall k :: 0 <= k < |expectations| && matches[k] ==> !CanHandle(s, expectations[k])
    ensures exp != null ==> exists k ::
      && 0 <= k < |expectations| && expectations[k] == exp && matches[k] && CanHandle(s, expectations[k])
      && forall j :: k < j < |expectations| && matches[j] ==> !CanHandle(s, expectations[j])
  {
    var i := |expectations|;
    while i > 0
      invariant 0 <= i <= |expectations|
      invariant forall k :: i <= k < |expectations| && matches[k] ==> !CanHandle(s, expectations[k])
    {
      i := i - 1;
      assert expectations[i] in s.graph;
      var should := expectations[i].ShouldHandleArguments(matches[i], s);
      if should {
        return expectations[i];
      }
    }
    return null;
  }

  /** A call of a mock function: a step of the run for the newest expectation that takes it, or no step at all when
      nobody does; either way the expectations stay ordered. */
  method MockCall(expectations: seq<Expectation>, matches: seq<bool>, ghost s: State<Expectation>)
    returns (exp: Expectation?, excessive: bool)
    requires Ordered(s) && Shows(s) && AllIn(expectations, s.graph.Keys) && |matches| == |expectations|
    modifies s.graph.Keys`retired, s.graph.Keys`callCount
    ensures exp == null ==> Shows(s)
    ensures exp == null ==> forall k :: 0 <= k < |expectations| && matches[k] ==> !CanHandle(s, expectations[k])
    ensures exp != null ==> exists k ::
      && 0 <= k < |expectations| && expectations[k] == exp && matches[k] && CanHandle(s, expectations[k])
      && forall j :: k < j < |expectations| && matches[j] ==> !CanHandle(s, expectations[j])
    ensures exp != null ==> MayHappen(s, Call(exp))
    ensures exp != null ==> Shows(Next(s, Call(exp))) && Ordered(Next(s, Call(exp)))
    ensures exp != null ==> excessive == (s.status[exp].calls >= s.status[exp].most)
  {
    exp := FindMatchingExpectation(expectations, matches, s);
    excessive := false;
    if exp != null {
      excessive := exp.GetActionForArguments(s);
      NextKeepsOrder(s, Call(exp));
    }
  }

  /** The objects hold what s says. */
  ghost predicate Shows(s: State<Expectation>)
    reads s.graph.Keys
  {
    && s.graph.Keys == s.status.Keys
    && forall e :: e in s.graph ==> e.prerequisites == s.graph[e] && e.StatusNow() == s.status[e]
  }
}
