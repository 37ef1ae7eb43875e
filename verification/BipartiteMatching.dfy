/**
  Maximum bipartite matching by augmenting paths, as the unordered-elements matcher uses it.
  Left nodes are elements, right nodes are matchers.  Optimality is proved with a vertex cover
  kept beside the search: a matching and a cover of the same size certify each other.
 */
module BipartiteMatching {

  /** The value that marks a node without a partner. */
  const UNUSED: int := -1

  datatype RawMatrix = RawMatrix(lhsSize: nat, rhsSize: nat, matched: seq<seq<bool>>) {
    ghost predicate Valid() {
      |matched| == lhsSize && forall i :: 0 <= i < lhsSize ==> |matched[i]| == rhsSize
    }

    predicate HasEdge(ilhs: int, irhs: int)
      requires Valid() && 0 <= ilhs < lhsSize && 0 <= irhs < rhsSize
    {
      matched[ilhs][irhs]
    }
  }

  type MatchMatrix = g: RawMatrix | g.Valid() witness RawMatrix(0, 0, [])

  type Pairs = seq<(int, int)>

  // ---------------------------------------------------------------- what a matching and a cover are

  /** Edges of the graph, no left node and no right node used twice. */
  ghost predicate IsMatching(g: MatchMatrix, m: Pairs) {
    && (forall k :: 0 <= k < |m| ==>
          0 <= m[k].0 < g.lhsSize && 0 <= m[k].1 < g.rhsSize && g.matched[m[k].0][m[k].1])
    && (forall j, k :: 0 <= j < k < |m| ==> m[j].0 != m[k].0 && m[j].1 != m[k].1)
  }

  /** Every edge that leaves one of the first n left nodes has an endpoint in the cover. */
  ghost predicate IsCover(g: MatchMatrix, cl: set<int>, cr: set<int>, n: int) {
    && (forall i :: i in cl ==> 0 <= i < g.lhsSize)
    && (forall j :: j in cr ==> 0 <= j < g.rhsSize)
    && (forall i, j :: 0 <= i < n && i < g.lhsSize && 0 <= j < g.rhsSize && g.HasEdge(i, j) ==> i in cl || j in cr)
  }

  ghost predicate UsesLeft(m: Pairs, i: int) {
    exists k :: 0 <= k < |m| && m[k].0 == i
  }

  ghost predicate UsesRight(m: Pairs, j: int) {
    exists k :: 0 <= k < |m| && m[k].1 == j
  }

  ghost predicate CoversLeft(g: MatchMatrix, m: Pairs) {
    forall i :: 0 <= i < g.lhsSize ==> UsesLeft(m, i)
  }

  ghost predicate CoversRight(g: MatchMatrix, m: Pairs) {
    forall j :: 0 <= j < g.rhsSize ==> UsesRight(m, j)
  }

  /** Weak duality: a matching is never larger than a cover. */
  lemma {:induction false} MatchingAtMostCover(g: MatchMatrix, m: Pairs, cl: set<int>, cr: set<int>)
    requires IsMatching(g, m)
    requires forall k :: 0 <= k < |m| ==> m[k].0 in cl || m[k].1 in cr
    ensures |m| <= |cl| + |cr|
  {
    if |m| > 0 {
      var last := m[|m| - 1];
      var rest := m[..|m| - 1];
      if last.0 in cl {
        MatchingAtMostCover(g, rest, cl - {last.0}, cr);
      } else {
        MatchingAtMostCover(g, rest, cl, cr - {last.1});
      }
    }
  }

  // ---------------------------------------------------------------- the two vectors

  ghost predicate LeftOk(g: MatchMatrix, left: seq<int>, right: seq<int>, i: int)
    requires |left| == g.lhsSize && |right| == g.rhsSize && 0 <= i < |left|
  {
    left[i] != UNUSED ==> 0 <= left[i] < |right| && g.HasEdge(i, left[i]) && right[left[i]] == i
  }

  ghost predicate RightOk(left: seq<int>, right: seq<int>, j: int)
    requires 0 <= j < |right|
  {
    right[j] != UNUSED ==> 0 <= right[j] < |left| && left[right[j]] == j
  }

  /** Mutual reference, except that the right node `stale` may still name a partner that left it. */
  ghost predicate MutualExcept(g: MatchMatrix, left: seq<int>, right: seq<int>, stale: int) {
    && |left| == g.lhsSize && |right| == g.rhsSize
    && (forall i :: 0 <= i < |left| ==> LeftOk(g, left, right, i))
    && (forall j :: 0 <= j < |right| && j != stale ==> RightOk(left, right, j))
  }

  ghost predicate Mutual(g: MatchMatrix, left: seq<int>, right: seq<int>) {
    MutualExcept(g, left, right, UNUSED)
  }

  ghost function Seen(seen: seq<bool>): set<int> {
    set j | 0 <= j < |seen| && seen[j]
  }

  ghost function Unseen(seen: seq<bool>): set<int> {
    set j | 0 <= j < |seen| && !seen[j]
  }

  ghost function Matched(left: seq<int>): set<int> {
    set i | 0 <= i < |left| && left[i] != UNUSED
  }

  /** Left nodes explored below l: all their neighbours have been seen, and the right nodes newly seen
      are exactly their partners. */
  ghost predicate Explored(g: MatchMatrix, left: seq<int>, right: seq<int>, before: seq<bool>, after: seq<bool>,
                           l: int, explored: set<int>)
    requires |left| == g.lhsSize && |right| == |before| == |after| == g.rhsSize
  {
    && (forall j :: 0 <= j < |right| && before[j] ==> after[j])
    && (forall i :: i in explored ==> 0 <= i < |left| && i != l)
    && (forall i :: i in explored ==> 0 <= left[i] < |right| && after[left[i]] && !before[left[i]])
    && (forall i, j :: i in explored && 0 <= j < |right| && g.HasEdge(i, j) ==> after[j])
    && (forall j :: 0 <= j < |right| && after[j] && !before[j] ==> right[j] in explored)
  }

  /** The search from l failed after exploring the given left nodes besides l. */
  ghost predicate DeadEnd(g: MatchMatrix, left: seq<int>, right: seq<int>, before: seq<bool>, after: seq<bool>,
                          l: int, explored: set<int>)
    requires |left| == g.lhsSize && |right| == |before| == |after| == g.rhsSize && 0 <= l < |left|
  {
    && Explored(g, left, right, before, after, l, explored)
    && (forall j :: 0 <= j < |right| && g.HasEdge(l, j) ==> after[j])
  }

  /** What a successful search from l did: l gained a right node that was unseen, no other left node
      gained or lost a partner, and nothing behind an already seen right node moved. */
  ghost predicate Augmented(g: MatchMatrix, left0: seq<int>, right0: seq<int>, before: seq<bool>,
                            left: seq<int>, right: seq<int>, l: int)
    requires |left0| == |left| == g.lhsSize && |right0| == |right| == |before| == g.rhsSize
    requires 0 <= l < |left|
  {
    && MutualExcept(g, left, right, left0[l])
    && 0 <= left[l] < |right| && !before[left[l]]
    && (forall j :: 0 <= j < |right| && before[j] ==> right[j] == right0[j])
    && (forall i :: 0 <= i < |left| && i != l ==> (left[i] == UNUSED <==> left0[i] == UNUSED))
    && (forall i :: 0 <= i < |left| && i != l && 0 <= left0[i] < |right| && before[left0[i]] ==> left[i] == left0[i])
  }

  lemma {:induction false} UnseenShrinks(before: seq<bool>, after: seq<bool>, r: int)
    requires |before| == |after| && 0 <= r < |before| && !before[r] && after[r]
    requires forall j :: 0 <= j < |before| && before[j] ==> after[j]
    ensures Unseen(after) < Unseen(before)
  {
    assert r in Unseen(before) && r !in Unseen(after);
  }

  // ---------------------------------------------------------------- cardinality

  lemma {:induction false} InjectiveImage<T, U>(s: set<T>, f: T -> U, t: set<U>)
    requires forall x, y :: x in s && y in s && f(x) == f(y) ==> x == y
    requires t == set x | x in s :: f(x)
    ensures |t| == |s|
  {
    if s == {} {
      assert t == {};
    } else {
      var x :| x in s;
      var t' := set y | y in s - {x} :: f(y);
      assert t' == t - {f(x)};
      InjectiveImage(s - {x}, f, t');
    }
  }

  lemma {:induction false} SubsetSize(a: set<int>, b: set<int>)
    requires a <= b
    ensures |a| <= |b|
    ensures |a| == |b| ==> a == b
  {
    assert |b - a| == |b| - |a|;
  }

  lemma {:induction false} UnionSize<T>(a: set<T>, b: set<T>)
    ensures |a + b| == |a| + |b - a|
  {
    assert a + b == a + (b - a);
  }

  /** A cover as small as the matching uses one endpoint of each matched edge and nothing else. */
  lemma {:induction false} CoverIsTight(g: MatchMatrix, left: seq<int>, right: seq<int>, cl: set<int>, cr: set<int>,
                                        n: int)
    requires Mutual(g, left, right) && IsCover(g, cl, cr, n)
    requires forall i :: i in Matched(left) ==> i < n
    requires |cl| + |cr| == |Matched(left)|
    ensures cl <= Matched(left)
    ensures forall j :: j in cr ==> right[j] != UNUSED
    ensures forall i :: i in Matched(left) ==> !(i in cl && left[i] in cr)
  {
    var a := set i | i in Matched(left) && i in cl;
    var b := set i | i in Matched(left) && left[i] in cr;
    var f := i => if 0 <= i < |left| then left[i] else UNUSED;
    var image := set i | i in b :: f(i);
    forall x, y | x in b && y in b && f(x) == f(y) ensures x == y {
      assert LeftOk(g, left, right, x) && LeftOk(g, left, right, y);
    }
    InjectiveImage(b, f, image);
    SubsetSize(a, cl);
    SubsetSize(image, cr);
    forall i | i in Matched(left) ensures i in a + b {
      assert LeftOk(g, left, right, i);
    }
    assert a + b == Matched(left);
    assert |a + b| == |a| + |b| - |a * b|;
    assert a * b == {};
    forall j | j in cr ensures right[j] != UNUSED {
      var i :| i in b && f(i) == j;
      assert LeftOk(g, left, right, i);
    }
  }

  /** After a successful search the new left node joins the cover. */
  lemma {:induction false} FoundCover(g: MatchMatrix, left0: seq<int>, right0: seq<int>, left: seq<int>, cl: set<int>,
                                      cr: set<int>, l: int)
    requires Mutual(g, left0, right0) && IsCover(g, cl, cr, l)
    requires 0 <= l < |left0| && left0[l] == UNUSED && |left| == |left0| && left[l] != UNUSED
    requires forall i :: 0 <= i < |left| && i != l ==> (left[i] != UNUSED <==> left0[i] != UNUSED)
    requires forall i :: i in Matched(left0) ==> i < l
    requires |cl| + |cr| == |Matched(left0)|
    ensures Matched(left) == Matched(left0) + {l}
    ensures IsCover(g, cl + {l}, cr, l + 1) && |cl + {l}| + |cr| == |Matched(left)|
  {
    CoverIsTight(g, left0, right0, cl, cr, l);
    assert l !in Matched(left0) && l !in cl;
  }

  /** After a failed search, exchanging the explored left nodes for the seen right nodes gives a cover
      of one more left node, no larger than before. */
  lemma {:induction false} SwapCover(g: MatchMatrix, left: seq<int>, right: seq<int>, cl: set<int>, cr: set<int>,
                                     l: int, before: seq<bool>, after: seq<bool>, explored: set<int>)
    requires Mutual(g, left, right) && IsCover(g, cl, cr, l)
    requires 0 <= l < |left| && left[l] == UNUSED
    requires forall i :: i in Matched(left) ==> i < l
    requires |cl| + |cr| == |Matched(left)|
    requires |before| == |after| == g.rhsSize && Seen(before) == {}
    requires DeadEnd(g, left, right, before, after, l, explored)
    ensures IsCover(g, cl - explored - {l}, cr + Seen(after), l + 1)
    ensures |cl - explored - {l}| + |cr + Seen(after)| == |Matched(left)|
  {
    SwapSize(g, left, right, cl, cr, l, before, after, explored);
    CoverIsTight(g, left, right, cl, cr, l);
    assert l !in cl;
    SwapCount(cl, cr, explored, Seen(after), l);
    SwapCovers(g, left, right, cl, cr, l, before, after, explored);
  }

  lemma {:induction false} SwapCount(cl: set<int>, cr: set<int>, explored: set<int>, seen: set<int>, l: int)
    requires l !in cl && |cl * explored| == |seen - cr|
    ensures |cl - explored - {l}| + |cr + seen| == |cl| + |cr|
  {
    UnionSize(cr, seen);
    assert cl - explored - {l} == cl - explored;
    UnionSize(cl * explored, cl - explored);
    assert cl * explored + (cl - explored) == cl && (cl - explored) - cl * explored == cl - explored;
  }

  lemma {:induction false} SwapCovers(g: MatchMatrix, left: seq<int>, right: seq<int>, cl: set<int>, cr: set<int>,
                                      l: int, before: seq<bool>, after: seq<bool>, explored: set<int>)
    requires |left| == g.lhsSize && |right| == |before| == |after| == g.rhsSize && 0 <= l < |left|
    requires IsCover(g, cl, cr, l)
    requires DeadEnd(g, left, right, before, after, l, explored)
    ensures IsCover(g, cl - explored - {l}, cr + Seen(after), l + 1)
  {
    forall i, j | 0 <= i < l + 1 && 0 <= j < g.rhsSize && g.HasEdge(i, j)
      ensures i in cl - explored - {l} || j in cr + Seen(after)
    {
      if i == l || i in explored {
        assert after[j];
      }
    }
  }

  /** The left cover nodes that were explored are as many as the seen right nodes outside the cover. */
  lemma {:induction false} SwapSize(g: MatchMatrix, left: seq<int>, right: seq<int>, cl: set<int>, cr: set<int>, l: int,
                                    before: seq<bool>, after: seq<bool>, explored: set<int>)
    requires Mutual(g, left, right) && IsCover(g, cl, cr, l)
    requires 0 <= l < |left| && left[l] == UNUSED
    requires forall i :: i in Matched(left) ==> i < l
    requires |cl| + |cr| == |Matched(left)|
    requires |before| == |after| == g.rhsSize && Seen(before) == {}
    requires DeadEnd(g, left, right, before, after, l, explored)
    ensures |cl * explored| == |Seen(after) - cr|
  {
    CoverIsTight(g, left, right, cl, cr, l);
    var s2 := Seen(after) - cr;
    var f := j => if 0 <= j < |right| then right[j] else UNUSED;
    var image := set j | j in s2 :: f(j);
    forall j | j in s2
      ensures f(j) in cl * explored && left[f(j)] == j
    {
      assert j !in Seen(before);
      assert RightOk(left, right, j) && LeftOk(g, left, right, right[j]);
      assert right[j] in Matched(left) && g.HasEdge(right[j], j);
    }
    InjectiveImage(s2, f, image);
    forall i | i in cl * explored
      ensures i in image
    {
      assert i in Matched(left) && i != l && LeftOk(g, left, right, i);
      assert left[i] in s2 && f(left[i]) == i;
    }
    assert image == cl * explored;
  }

  // ---------------------------------------------------------------- one step of an augmenting path

  /** Linking l to a free right node. */
  lemma {:induction false} LinkFree(g: MatchMatrix, left: seq<int>, right: seq<int>, before: seq<bool>, l: int, r: int)
    requires Mutual(g, left, right) && |before| == |right| && 0 <= l < |left| && 0 <= r < |right|
    requires g.HasEdge(l, r) && right[r] == UNUSED && !before[r]
    requires 0 <= left[l] < |right| ==> before[left[l]]
    ensures Augmented(g, left, right, before, left[l := r], right[r := l], l)
  {
    var left', right' := left[l := r], right[r := l];
    forall i | 0 <= i < |left'| ensures LeftOk(g, left', right', i) {
      assert LeftOk(g, left, right, i);
    }
    forall j | 0 <= j < |right'| && j != left[l] ensures RightOk(left', right', j) {
      assert RightOk(left, right, j) && LeftOk(g, left, right, l);
    }
  }

  /** Linking l to a right node whose former partner has just been given another one. */
  lemma {:induction false} LinkReleased(g: MatchMatrix, left0: seq<int>, right0: seq<int>, before: seq<bool>,
                                        mid: seq<bool>, left: seq<int>, right: seq<int>, l: int, r: int)
    requires Mutual(g, left0, right0) && |before| == |mid| == |right0|
    requires |left| == |left0| && |right| == |right0| && 0 <= l < |left| && 0 <= r < |right|
    requires g.HasEdge(l, r) && right0[r] != UNUSED && !before[r] && mid[r]
    requires forall j :: 0 <= j < |mid| && before[j] ==> mid[j]
    requires left0[l] != UNUSED ==> 0 <= left0[l] < |right| && before[left0[l]]
    requires 0 <= right0[r] < |left|
    requires Augmented(g, left0, right0, mid, left, right, right0[r])
    ensures Augmented(g, left0, right0, before, left[l := r], right[r := l], l)
  {
    var l' := right0[r];
    var left', right' := left[l := r], right[r := l];
    assert RightOk(left0, right0, r);
    assert left0[l'] == r && l != l' && right[r] == l';
    forall i | 0 <= i < |left'| ensures LeftOk(g, left', right', i) {
      assert LeftOk(g, left, right, i) && LeftOk(g, left, right, l');
    }
    forall j | 0 <= j < |right'| && j != left0[l] ensures RightOk(left', right', j) {
      assert LeftOk(g, left0, right0, l) && LeftOk(g, left, right, l);
      if j != r { assert RightOk(left, right, j); }
    }
  }

  /** A failed search below the right node r adds its explored nodes to those explored before. */
  lemma {:induction false} ExploreFurther(g: MatchMatrix, left: seq<int>, right: seq<int>, before: seq<bool>,
                                          seen: seq<bool>, after: seq<bool>, l: int, r: int, explored: set<int>,
                                          more: set<int>)
    requires Mutual(g, left, right) && |before| == |seen| == |after| == |right| && 0 <= l < |left|
    requires 0 <= r < |right| && !seen[r] && right[r] != UNUSED && 0 <= right[r] < |left|
    requires left[l] != UNUSED ==> 0 <= left[l] < |right| && before[left[l]]
    requires Explored(g, left, right, before, seen, l, explored)
    requires DeadEnd(g, left, right, seen[r := true], after, right[r], more)
    ensures Explored(g, left, right, before, after, l, explored + more + {right[r]})
    ensures forall j :: 0 <= j < |right| && seen[j] ==> after[j]
    ensures after[r]
  {
    assert RightOk(left, right, r);
    var mid := seen[r := true];
    assert forall j :: 0 <= j < |right| && seen[j] ==> mid[j];
    assert mid[r];
    assert !before[r];
  }

  // ---------------------------------------------------------------- the algorithm

  class MaxBipartiteMatchState {
    const graph: MatchMatrix
    const left: array<int>
    const right: array<int>

    ghost predicate Valid()
      reads this, left, right
    {
      && left != right && left.Length == graph.lhsSize && right.Length == graph.rhsSize
      && Mutual(graph, left[..], right[..])
    }

    constructor (g: MatchMatrix)
      ensures Valid() && graph == g && fresh(left) && fresh(right)
      ensures Matched(left[..]) == {}
    {
      graph := g;
      left := new int[g.lhsSize](_ => UNUSED);
      right := new int[g.rhsSize](_ => UNUSED);
    }

    /** Depth-first search for an augmenting path from ilhs over the right nodes not yet seen. */
    method TryAugment(ilhs: nat, seen: array<bool>) returns (found: bool, ghost explored: set<int>)
      requires Valid() && ilhs < left.Length && seen.Length == right.Length
      requires left[ilhs] != UNUSED ==> 0 <= left[ilhs] < seen.Length && seen[left[ilhs]]
      modifies left, right, seen
      ensures forall j :: 0 <= j < seen.Length && old(seen[j]) ==> seen[j]
      ensures found ==> Augmented(graph, old(left[..]), old(right[..]), old(seen[..]), left[..], right[..], ilhs)
      ensures !found ==> left[..] == old(left[..]) && right[..] == old(right[..])
      ensures !found ==> DeadEnd(graph, left[..], right[..], old(seen[..]), seen[..], ilhs, explored)
      decreases Unseen(seen[..])
    {
      ghost var left0, right0, seen0 := left[..], right[..], seen[..];
      explored := {};
      for irhs := 0 to right.Length
        invariant left[..] == left0 && right[..] == right0
        invariant forall j :: 0 <= j < irhs && graph.HasEdge(ilhs, j) ==> seen[j]
        invariant Explored(graph, left0, right0, seen0, seen[..], ilhs, explored)
      {
        if !seen[irhs] && graph.HasEdge(ilhs, irhs) {
          ghost var seen1 := seen[..];
          seen[irhs] := true;
          ghost var mid := seen[..];
          assert mid == seen1[irhs := true];
          UnseenShrinks(seen0, mid, irhs);
          if right[irhs] == UNUSED {
            LinkFree(graph, left0, right0, seen0, ilhs, irhs);
            found := true;
          } else {
            assert RightOk(left0, right0, irhs);
            ghost var more;
            found, more := TryAugment(right[irhs], seen);
            if found {
              LinkReleased(graph, left0, right0, seen0, mid, left[..], right[..], ilhs, irhs);
            } else {
              ExploreFurther(graph, left0, right0, seen0, seen1, seen[..], ilhs, irhs, explored, more);
              explored := explored + more + {right[irhs]};
            }
          }
          if found {
            ghost var left1, right1 := left[..], right[..];
            left[ilhs] := irhs;
            right[irhs] := ilhs;
            assert left[..] == left1[ilhs := irhs] && right[..] == right1[irhs := ilhs];
            return;
          }
        }
      }
      found := false;
    }

    /** Runs one search from each left node and lists the pairs found. */
    method Compute() returns (result: Pairs)
      requires Valid() && Matched(left[..]) == {}
      modifies left, right
      ensures IsMatching(graph, result)
      ensures exists cl, cr :: IsCover(graph, cl, cr, graph.lhsSize) && |cl| + |cr| == |result|
    {
      ghost var cl, cr: set<int> := {}, {};
      for ilhs := 0 to left.Length
        invariant Valid()
        invariant forall i :: i in Matched(left[..]) ==> i < ilhs
        invariant IsCover(graph, cl, cr, ilhs) && |cl| + |cr| == |Matched(left[..])|
      {
        cl, cr := Search(ilhs, cl, cr);
      }
      result := ListPairs();
    }

    /** The body of the first loop of Compute: the search from one left node, and the cover that goes with it. */
    method Search(ilhs: nat, ghost cl: set<int>, ghost cr: set<int>) returns (ghost cl': set<int>, ghost cr': set<int>)
      requires Valid() && ilhs < left.Length
      requires forall i :: i in Matched(left[..]) ==> i < ilhs
      requires IsCover(graph, cl, cr, ilhs) && |cl| + |cr| == |Matched(left[..])|
      modifies left, right
      ensures Valid()
      ensures forall i :: i in Matched(left[..]) ==> i < ilhs + 1
      ensures Matched(left[..]) == old(Matched(left[..])) || Matched(left[..]) == old(Matched(left[..])) + {ilhs}
      ensures IsCover(graph, cl', cr', ilhs + 1) && |cl'| + |cr'| == |Matched(left[..])|
    {
      ghost var left0, right0 := left[..], right[..];
      assert ilhs !in Matched(left0);
      assert left[ilhs] == UNUSED;
      var seen := new bool[right.Length](_ => false);
      ghost var seen0 := seen[..];
      assert Seen(seen0) == {};
      var found;
      ghost var explored;
      found, explored := TryAugment(ilhs, seen);
      if found {
        FoundCover(graph, left0, right0, left[..], cl, cr, ilhs);
        cl', cr' := cl + {ilhs}, cr;
      } else {
        SwapCover(graph, left0, right0, cl, cr, ilhs, seen0, seen[..], explored);
        cl', cr' := cl - explored - {ilhs}, cr + Seen(seen[..]);
      }
    }

    /** The second loop of Compute. */
    method ListPairs() returns (result: Pairs)
      requires Valid()
      ensures IsMatching(graph, result) && |result| == |Matched(left[..])|
    {
      result := [];
      for ilhs := 0 to left.Length
        invariant forall k :: 0 <= k < |result| ==> 0 <= result[k].0 < ilhs && left[result[k].0] == result[k].1 != UNUSED
        invariant forall j, k :: 0 <= j < k < |result| ==> result[j].0 < result[k].0
        invariant |result| == |Matched(left[..ilhs])|
      {
        assert left[..ilhs + 1] == left[..ilhs] + [left[ilhs]];
        var irhs := left[ilhs];
        if irhs == UNUSED {
          assert Matched(left[..ilhs + 1]) == Matched(left[..ilhs]);
        } else {
          assert Matched(left[..ilhs + 1]) == Matched(left[..ilhs]) + {ilhs};
          result := result + [(ilhs, irhs)];
        }
      }
      assert left[..left.Length] == left[..];
      forall k | 0 <= k < |result|
        ensures LeftOk(graph, left[..], right[..], result[k].0)
      {
        assert left[..][result[k].0] == result[k].1;
      }
    }
  }

  /** The pairs found are a matching, and no matching of the graph has more pairs. */
  method FindMaxBipartiteMatching(g: MatchMatrix) returns (result: Pairs)
    ensures IsMatching(g, result)
    ensures forall m :: IsMatching(g, m) ==> |m| <= |result|
  {
    var state := new MaxBipartiteMatchState(g);
    result := state.Compute();
    ghost var cl, cr :| IsCover(g, cl, cr, g.lhsSize) && |cl| + |cr| == |result|;
    forall m | IsMatching(g, m) ensures |m| <= |result| {
      MatchingAtMostCover(g, m, cl, cr);
    }
  }

  /** Which side must be covered: the flags of an unordered-elements matcher. */
  datatype Require = Superset | Subset | ExactMatch {
    predicate HasSuperset() { Superset? || ExactMatch? }
    predicate HasSubset() { Subset? || ExactMatch? }
  }

  /** For a superset every matcher needs an element of its own, for a subset every element a matcher, for an exact match
      both at once. */
  method FindPairing(g: MatchMatrix, flags: Require) returns (ok: bool)
    ensures flags == Superset ==> (ok <==> exists m :: IsMatching(g, m) && CoversRight(g, m))
    ensures flags == Subset ==> (ok <==> exists m :: IsMatching(g, m) && CoversLeft(g, m))
    ensures flags == ExactMatch ==> (ok <==> exists m :: IsMatching(g, m) && CoversRight(g, m) && CoversLeft(g, m))
  {
    var matches := FindMaxBipartiteMatching(g);
    forall m | IsMatching(g, m)
      ensures |m| <= g.lhsSize && |m| <= g.rhsSize
      ensures CoversLeft(g, m) <==> |m| == g.lhsSize
      ensures CoversRight(g, m) <==> |m| == g.rhsSize
    {
      FullIffCovers(g, m);
    }
    var maxFlow := |matches|;
    if flags.HasSuperset() && maxFlow < g.rhsSize {
      return false;
    }
    if flags.HasSubset() && maxFlow < g.lhsSize {
      return false;
    }
    return true;
  }

  /** A matching covers a side exactly when it has as many pairs as that side has nodes. */
  lemma {:induction false} FullIffCovers(g: MatchMatrix, m: Pairs)
    requires IsMatching(g, m)
    ensures |m| <= g.lhsSize && |m| <= g.rhsSize
    ensures CoversLeft(g, m) <==> |m| == g.lhsSize
    ensures CoversRight(g, m) <==> |m| == g.rhsSize
  {
    var lefts, rights := seq(|m|, k requires 0 <= k < |m| => m[k].0), seq(|m|, k requires 0 <= k < |m| => m[k].1);
    DistinctInRange(lefts, g.lhsSize);
    DistinctInRange(rights, g.rhsSize);
    forall i ensures UsesLeft(m, i) <==> i in lefts {
      if i in lefts {
        var k :| 0 <= k < |lefts| && lefts[k] == i;
        assert m[k].0 == i;
      }
      if UsesLeft(m, i) {
        var k :| 0 <= k < |m| && m[k].0 == i;
        assert lefts[k] == i;
      }
    }
    forall j ensures UsesRight(m, j) <==> j in rights {
      if j in rights {
        var k :| 0 <= k < |rights| && rights[k] == j;
        assert m[k].1 == j;
      }
      if UsesRight(m, j) {
        var k :| 0 <= k < |m| && m[k].1 == j;
        assert rights[k] == j;
      }
    }
  }

  ghost function Below(n: nat): (s: set<int>)
    ensures forall i :: i in s <==> 0 <= i < n
    ensures |s| == n
  {
    if n == 0 then {} else Below(n - 1) + {n - 1}
  }

  lemma {:induction false} ElementCount(s: seq<int>)
    requires forall j, k :: 0 <= j < k < |s| ==> s[j] != s[k]
    ensures |set x | x in s| == |s|
  {
    if |s| > 0 {
      var t := s[..|s| - 1];
      ElementCount(t);
      assert s == t + [s[|s| - 1]];
      assert (set x | x in s) == (set x | x in t) + {s[|s| - 1]};
    }
  }

  /** Pigeonhole: distinct numbers below n are at most n, and n of them are all. */
  lemma {:induction false} DistinctInRange(s: seq<int>, n: nat)
    requires forall k :: 0 <= k < |s| ==> 0 <= s[k] < n
    requires forall j, k :: 0 <= j < k < |s| ==> s[j] != s[k]
    ensures |s| <= n
    ensures (forall i :: 0 <= i < n ==> i in s) <==> |s| == n
  {
    var all, elements := Below(n), set x | x in s;
    ElementCount(s);
    SubsetSize(elements, all);
    if |s| == n {
      assert elements == all;
      forall i | 0 <= i < n ensures i in s {
        assert i in all;
        assert i in elements;
      }
    }
    if forall i :: 0 <= i < n ==> i in s {
      assert elements == all;
    }
  }
}
