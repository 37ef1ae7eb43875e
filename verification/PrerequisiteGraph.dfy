/**
  The graph of expectations and their immediate prerequisites: what a transitive prerequisite is,
  and why a traversal without a visited set still ends.
 */
module PrerequisiteGraphs {

  /** Each node's immediate prerequisites, in any order. */
  type Graph<T(==)> = map<T, seq<T>>

  ghost predicate Closed<T>(g: Graph<T>, s: set<T>) {
    forall n, m :: n in s && n in g && m in g[n] ==> m in s
  }

  ghost predicate WellFormed<T>(g: Graph<T>) {
    Closed(g, g.Keys)
  }

  ghost function Successors<T>(g: Graph<T>, s: set<T>): set<T> {
    set n, m | n in s && n in g && m in g[n] :: m
  }

  /** The smallest closed set that contains s. */
  ghost function Grow<T>(g: Graph<T>, s: set<T>): (r: set<T>)
    requires WellFormed(g) && s <= g.Keys
    ensures s <= r <= g.Keys && Closed(g, r)
    decreases g.Keys - s
  {
    var t := s + Successors(g, s);
    if t == s then
      assert forall n, m :: n in s && n in g && m in g[n] ==> m in Successors(g, s);
      s
    else
      Grow(g, t)
  }

  /** All transitive prerequisites of n. */
  ghost function Transitive<T>(g: Graph<T>, n: T): (r: set<T>)
    requires WellFormed(g)
    ensures r <= g.Keys && Closed(g, r)
    ensures n in g ==> forall m :: m in g[n] ==> m in r
  {
    assert n in g ==> forall m :: m in g[n] ==> m in Successors(g, {n});
    Grow(g, Successors(g, {n}))
  }

  /** No node is among its own transitive prerequisites. */
  ghost predicate Acyclic<T>(g: Graph<T>)
    requires WellFormed(g)
  {
    forall n {:trigger Transitive(g, n)} :: n in g ==> n !in Transitive(g, n)
  }

  lemma {:induction false} GrowIsLeast<T>(g: Graph<T>, s: set<T>, c: set<T>)
    requires WellFormed(g) && s <= g.Keys
    requires s <= c && Closed(g, c)
    ensures Grow(g, s) <= c
    decreases g.Keys - s
  {
    var t := s + Successors(g, s);
    if t != s {
      GrowIsLeast(g, t, c);
    }
  }

  lemma {:induction false} TransitiveIsLeast<T>(g: Graph<T>, n: T, c: set<T>)
    requires WellFormed(g) && n in g
    requires Closed(g, c)
    requires forall m :: m in g[n] ==> m in c
    ensures Transitive(g, n) <= c
  {
    GrowIsLeast(g, Successors(g, {n}), c);
  }

  lemma {:induction false} TransitiveOfPrerequisite<T>(g: Graph<T>, n: T, m: T)
    requires WellFormed(g) && n in g && m in Transitive(g, n)
    ensures Transitive(g, m) <= Transitive(g, n)
  {
    TransitiveIsLeast(g, m, Transitive(g, n));
  }

  // ---------------------------------------------------------------- the same notion by paths

  ghost predicate Path<T>(g: Graph<T>, p: seq<T>) {
    && |p| >= 2
    && forall i :: 0 <= i < |p| - 1 ==> p[i] in g && p[i + 1] in g[p[i]]
  }

  ghost predicate Leads<T>(g: Graph<T>, p: seq<T>, a: T, b: T) {
    Path(g, p) && p[0] == a && p[|p| - 1] == b
  }

  lemma {:induction false} PathStaysInside<T>(g: Graph<T>, p: seq<T>, a: T, i: nat)
    requires WellFormed(g) && a in g && Path(g, p) && p[0] == a && 1 <= i < |p|
    ensures p[i] in Transitive(g, a)
  {
    if i > 1 {
      PathStaysInside(g, p, a, i - 1);
      assert p[i - 1 + 1] in g[p[i - 1]];
    } else {
      assert p[0 + 1] in g[p[0]];
    }
  }

  lemma {:induction false} PathExtends<T>(g: Graph<T>, p: seq<T>, a: T, m: T, b: T)
    requires Leads(g, p, a, m) && m in g && b in g[m]
    ensures Leads(g, p + [b], a, b)
  {
    var q := p + [b];
    forall i | 0 <= i < |q| - 1
      ensures q[i] in g && q[i + 1] in g[q[i]]
    {
      if i < |p| - 1 {
        assert p[i + 1] in g[p[i]];
      }
    }
  }

  /** The transitive prerequisites of a are the nodes at the end of a nonempty path from a. */
  lemma {:induction false} TransitiveIffPath<T>(g: Graph<T>, a: T, b: T)
    requires WellFormed(g) && a in g
    ensures b in Transitive(g, a) <==> exists p :: Leads(g, p, a, b)
  {
    forall p | Leads(g, p, a, b)
      ensures b in Transitive(g, a)
    {
      PathStaysInside(g, p, a, |p| - 1);
    }
    var c := set m | m in g && exists p :: Leads(g, p, a, m);
    forall m | m in g[a]
      ensures m in c
    {
      assert Leads(g, [a, m], a, m);
    }
    forall n, m | n in c && n in g && m in g[n]
      ensures m in c
    {
      var p :| Leads(g, p, a, n);
      PathExtends(g, p, a, n, m);
      assert Leads(g, p + [m], a, m);
    }
    TransitiveIsLeast(g, a, c);
  }

  // ---------------------------------------------------------------- counting paths

  lemma {:induction false} SubsetIsSmaller<T>(a: set<T>, b: set<T>, x: T)
    requires a <= b && x in b && x !in a
    ensures |a| < |b|
  {
    assert a <= b - {x};
    SubsetIsNotLarger(a, b - {x});
  }

  lemma {:induction false} SubsetIsNotLarger<T>(a: set<T>, b: set<T>)
    requires a <= b
    ensures |a| <= |b|
  {
    assert b == a + (b - a);
  }

  lemma {:induction false} PrerequisiteRanksLower<T>(g: Graph<T>, n: T, m: T)
    requires WellFormed(g) && Acyclic(g) && n in g && m in Transitive(g, n)
    ensures |Transitive(g, m)| < |Transitive(g, n)|
  {
    TransitiveOfPrerequisite(g, n, m);
    SubsetIsSmaller(Transitive(g, m), Transitive(g, n), m);
  }

  ghost predicate AllIn<T>(l: seq<T>, s: set<T>) {
    forall m :: m in l ==> m in s
  }

  lemma {:induction false} AllInPush<T>(l: seq<T>, s: set<T>, n: T)
    requires AllIn(l, s) && n in s
    ensures AllIn(l + [n], s)
  {
  }

  lemma {:induction false} AllInStep<T>(l: seq<T>, i: nat, s: set<T>)
    requires i < |l| && AllIn(l[..i], s) && l[i] in s
    ensures AllIn(l[..i + 1], s)
  {
    assert l[..i + 1] == l[..i] + [l[i]];
  }

  lemma {:induction false} AllInLarger<T>(l: seq<T>, s: set<T>, t: set<T>)
    requires AllIn(l, s) && s <= t
    ensures AllIn(l, t)
  {
  }

  /** The number of paths that start at n, the trivial one included. */
  ghost function PathCount<T>(g: Graph<T>, n: T): (c: nat)
    requires WellFormed(g) && Acyclic(g) && n in g
    ensures c > 0
    decreases |Transitive(g, n)|, 1, 0
  {
    1 + PathCountBelow(g, n, g[n])
  }

  ghost function PathCountBelow<T>(g: Graph<T>, n: T, l: seq<T>): nat
    requires WellFormed(g) && Acyclic(g) && n in g
    requires AllIn(l, Transitive(g, n))
    decreases |Transitive(g, n)|, 0, |l|
  {
    if l == [] then 0 else
      var m := l[|l| - 1];
      PrerequisiteRanksLower(g, n, m);
      PathCountBelow(g, n, l[..|l| - 1]) + PathCount(g, m)
  }

  /** The number of paths that start at an entry of the stack. */
  ghost function Weight<T>(g: Graph<T>, l: seq<T>): nat
    requires WellFormed(g) && Acyclic(g)
    requires AllIn(l, g.Keys)
  {
    if l == [] then 0 else Weight(g, l[..|l| - 1]) + PathCount(g, l[|l| - 1])
  }

  lemma {:induction false} CountBelowIsWeight<T>(g: Graph<T>, n: T, l: seq<T>)
    requires WellFormed(g) && Acyclic(g) && n in g
    requires AllIn(l, Transitive(g, n))
    ensures PathCountBelow(g, n, l) == Weight(g, l)
  {
    if l != [] {
      CountBelowIsWeight(g, n, l[..|l| - 1]);
    }
  }

  lemma {:induction false} WeightOfPush<T>(g: Graph<T>, l: seq<T>, n: T)
    requires WellFormed(g) && Acyclic(g)
    requires AllIn(l, g.Keys)
    requires n in g
    ensures Weight(g, l + [n]) == Weight(g, l) + PathCount(g, n)
  {
    assert (l + [n])[..|l|] == l;
  }

  lemma {:induction false} WeightOfStep<T>(g: Graph<T>, l: seq<T>, i: nat)
    requires WellFormed(g) && Acyclic(g) && i < |l| && AllIn(l[..i], g.Keys) && l[i] in g
    ensures AllIn(l[..i + 1], g.Keys)
    ensures Weight(g, l[..i + 1]) == Weight(g, l[..i]) + PathCount(g, l[i])
  {
    AllInStep(l, i, g.Keys);
    assert l[..i + 1] == l[..i] + [l[i]];
    WeightOfPush(g, l[..i], l[i]);
  }

  /** Replacing the top of the stack by all its prerequisites removes exactly one path. */
  lemma {:induction false} WeightOfPop<T>(g: Graph<T>, l: seq<T>, n: T)
    requires WellFormed(g) && Acyclic(g)
    requires AllIn(l, g.Keys)
    requires n in g
    ensures Weight(g, l + [n]) == Weight(g, l) + 1 + Weight(g, g[n])
  {
    WeightOfPush(g, l, n);
    CountBelowIsWeight(g, n, g[n]);
  }

  // ---------------------------------------------------------------- growing the graph

  /** h is g with new prerequisites for e, or with e as a new node; nobody depends on e. */
  ghost predicate Gains<T>(g: Graph<T>, h: Graph<T>, e: T) {
    && g.Keys <= h.Keys <= g.Keys + {e}
    && (forall n :: n in g && n != e ==> h[n] == g[n])
    && (forall n :: n in h ==> e !in h[n])
  }

  lemma {:induction false} NewestIsNobodysPrerequisite<T>(g: Graph<T>, h: Graph<T>, e: T, n: T)
    requires WellFormed(h) && Gains(g, h, e) && n in h
    ensures e !in Transitive(h, n)
  {
    TransitiveIsLeast(h, n, h.Keys - {e});
  }

  lemma {:induction false} ClosedInBoth<T>(g: Graph<T>, h: Graph<T>, e: T, s: set<T>)
    requires Gains(g, h, e) && e !in s && s <= g.Keys
    ensures Closed(g, s) <==> Closed(h, s)
  {
    forall n, m | n in s && m in g[n]
      ensures m in h[n]
    {
      assert n in g && n != e;
    }
    forall n, m | n in s && m in h[n]
      ensures m in g[n]
    {
      assert n in g && n != e;
    }
  }

  lemma {:induction false} OthersKeepTheirs<T>(g: Graph<T>, h: Graph<T>, e: T, n: T)
    requires WellFormed(g) && WellFormed(h) && Gains(g, h, e)
    requires n in g && n != e
    requires e in g ==> e !in Transitive(g, e)
    ensures Transitive(h, n) == Transitive(g, n)
  {
    NewestIsNobodysPrerequisite(g, h, e, n);
    assert Closed(g, g.Keys - {e});
    TransitiveIsLeast(g, n, g.Keys - {e});
    ClosedInBoth(g, h, e, Transitive(g, n));
    TransitiveIsLeast(h, n, Transitive(g, n));
    ClosedInBoth(g, h, e, Transitive(h, n));
    TransitiveIsLeast(g, n, Transitive(h, n));
  }

  /** Giving prerequisites to a node that nobody depends on leaves every other node's transitive
      prerequisites alone and makes no cycle. */
  lemma {:induction false} NewestNodeGainsPrerequisites<T>(g: Graph<T>, h: Graph<T>, e: T)
    requires WellFormed(g) && Acyclic(g) && WellFormed(h)
    requires Gains(g, h, e)
    ensures Acyclic(h)
    ensures forall n :: n in g && n != e ==> Transitive(h, n) == Transitive(g, n)
  {
    forall n | n in g && n != e
      ensures Transitive(h, n) == Transitive(g, n)
    {
      OthersKeepTheirs(g, h, e, n);
    }
    forall n | n in h
      ensures n !in Transitive(h, n)
    {
      if n == e {
        NewestIsNobodysPrerequisite(g, h, e, n);
      }
    }
  }

  // ---------------------------------------------------------------- leaving out edges

  ghost predicate Subgraph<T>(h: Graph<T>, g: Graph<T>) {
    h.Keys == g.Keys && forall n :: n in h ==> h[n] == g[n] || h[n] == []
  }

  lemma {:induction false} SubgraphReachesFewer<T>(h: Graph<T>, g: Graph<T>, n: T)
    requires WellFormed(g) && WellFormed(h) && Subgraph(h, g) && n in g
    ensures Transitive(h, n) <= Transitive(g, n)
  {
    var c := Transitive(g, n);
    forall a, b | a in c && b in h[a]
      ensures b in c
    {
      assert b in g[a];
    }
    TransitiveIsLeast(h, n, c);
  }

  lemma {:induction false} SubgraphIsAcyclic<T>(h: Graph<T>, g: Graph<T>)
    requires WellFormed(g) && Acyclic(g) && WellFormed(h) && Subgraph(h, g)
    ensures Acyclic(h)
  {
    forall n | n in h
      ensures n !in Transitive(h, n)
    {
      SubgraphReachesFewer(h, g, n);
    }
  }

  // ---------------------------------------------------------------- worklists

  /** Nodes reached from a start node and not on the stack have had all their prerequisites reached;
      the node in hand may still have some to go. */
  ghost predicate Swept<T>(g: Graph<T>, reached: set<T>, stack: seq<T>, inHand: set<T>) {
    forall n, m :: n in reached && n !in stack && n !in inHand && n in g && m in g[n] ==> m in reached
  }

  /** With an empty stack, whatever has been reached includes the transitive prerequisites of a start. */
  lemma {:induction false} SweptIsClosed<T>(g: Graph<T>, reached: set<T>, n: T)
    requires WellFormed(g) && n in g && n in reached && Swept(g, reached, [], {})
    ensures Transitive(g, n) <= reached
  {
    TransitiveIsLeast(g, n, reached);
  }

  lemma {:induction false} SweptPop<T>(g: Graph<T>, reached: set<T>, stack: seq<T>, n: T)
    requires Swept(g, reached, stack + [n], {})
    ensures Swept(g, reached, stack, {n})
  {
  }

  /** One more prerequisite m of the node in hand is pushed, or was reached before. */
  lemma {:induction false} SweptPush<T>(g: Graph<T>, reached: set<T>, stack: seq<T>, inHand: set<T>, m: T)
    requires Swept(g, reached, stack, inHand)
    ensures Swept(g, reached + {m}, stack + [m], inHand)
  {
  }

  /** A node without prerequisites need not be pushed. */
  lemma {:induction false} SweptLeaf<T>(g: Graph<T>, reached: set<T>, stack: seq<T>, inHand: set<T>, m: T)
    requires Swept(g, reached, stack, inHand) && m in g && g[m] == []
    ensures Swept(g, reached + {m}, stack, inHand)
  {
  }

  lemma {:induction false} SweptWhole<T>(g: Graph<T>, reached: set<T>, stack: seq<T>, n: T)
    requires n in g && Swept(g, reached, stack, {n}) && AllIn(g[n], reached)
    ensures Swept(g, reached, stack, {})
  {
  }
}
