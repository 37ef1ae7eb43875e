/**
  Fisher-Yates shuffling of a range of a vector; the random numbers are given as a sequence of choices.
 */
module Shuffling {

  /** One random number per round: the first below the width of the range, each later one below one less. */
  ghost predicate ValidChoices(width: int, choices: seq<int>) {
    && |choices| == (if width < 2 then 0 else width - 1)
    && forall k :: 0 <= k < |choices| ==> 0 <= choices[k] < width - k
  }

  function Swap<E>(s: seq<E>, i: int, j: int): (t: seq<E>)
    requires 0 <= i < |s| && 0 <= j < |s|
    ensures |t| == |s|
  {
    s[i := s[j]][j := s[i]]
  }

  /** The rounds on a value: the chosen element goes to the end of the range, which then shrinks. */
  ghost function Shuffled<E>(s: seq<E>, begin: int, width: int, choices: seq<int>): (t: seq<E>)
    requires 0 <= begin && begin + width <= |s| && ValidChoices(width, choices)
    ensures |t| == |s|
    decreases width
  {
    if width < 2 then s
    else Shuffled(Swap(s, begin + choices[0], begin + width - 1), begin, width - 1, choices[1..])
  }

  method ShuffleRange<E>(v: array<E>, begin: int, end: int, choices: seq<int>)
    requires 0 <= begin <= end <= v.Length && ValidChoices(end - begin, choices)
    modifies v
    ensures v[..] == Shuffled(old(v[..]), begin, end - begin, choices)
  {
    ghost var result := Shuffled(v[..], begin, end - begin, choices);
    ghost var current := v[..];
    var rangeWidth := end - begin;
    var round := 0;
    while rangeWidth >= 2
      invariant round <= |choices| && rangeWidth + round == end - begin
      invariant current == v[..]
      invariant ValidChoices(rangeWidth, choices[round..])
      invariant Shuffled(current, begin, rangeWidth, choices[round..]) == result
      decreases rangeWidth
    {
      ghost var left := choices[round..];
      var lastInRange := begin + rangeWidth - 1;
      var selected := begin + choices[round];
      v[selected], v[lastInRange] := v[lastInRange], v[selected];
      assert left[1..] == choices[round + 1..];
      current := Swap(current, selected, lastInRange);
      rangeWidth := rangeWidth - 1;
      round := round + 1;
    }
  }

  // ---------------------------------------------------------------- a permutation of the range

  /** Nothing outside the range differs. */
  ghost predicate SameOutside<E>(s: seq<E>, t: seq<E>, begin: int, width: int) {
    |s| == |t| && forall i :: 0 <= i < |s| && !(begin <= i < begin + width) ==> t[i] == s[i]
  }

  lemma {:induction false} SwapPermutes<E>(s: seq<E>, i: int, j: int)
    requires 0 <= i < |s| && 0 <= j < |s|
    ensures multiset(Swap(s, i, j)) == multiset(s)
  {
    var t := s[i := s[j]];
    assert multiset(t) == multiset(s) - multiset{s[i]} + multiset{s[j]};
    assert multiset(t[j := s[i]]) == multiset(t) - multiset{t[j]} + multiset{s[i]};
  }

  /** The whole vector is permuted, and only inside the range. */
  lemma {:induction false} ShuffledPermutes<E>(s: seq<E>, begin: int, width: int, choices: seq<int>)
    requires 0 <= begin && begin + width <= |s| && ValidChoices(width, choices)
    ensures multiset(Shuffled(s, begin, width, choices)) == multiset(s)
    ensures SameOutside(s, Shuffled(s, begin, width, choices), begin, width)
    decreases width
  {
    if width >= 2 {
      var i := begin + choices[0];
      var t := Swap(s, i, begin + width - 1);
      SwapPermutes(s, i, begin + width - 1);
      var rest := choices[1..];
      ShuffledPermutes(t, begin, width - 1, rest);
      var u := Shuffled(t, begin, width - 1, rest);
      StaysOutside(s, t, u, begin, width, i);
    }
  }

  lemma {:induction false} StaysOutside<E>(s: seq<E>, t: seq<E>, u: seq<E>, begin: int, width: int, i: int)
    requires 0 <= begin <= i < begin + width <= |s| && t == Swap(s, i, begin + width - 1)
    requires SameOutside(t, u, begin, width - 1)
    ensures SameOutside(s, u, begin, width)
  {
  }

  /** The first round exchanges the chosen element with the last of the range; the others are rounds on one less. */
  lemma {:induction false} FirstRound<E>(s: seq<E>, begin: int, width: int, choices: seq<int>) returns (t: seq<E>)
    requires 0 <= begin && 2 <= width && begin + width <= |s| && ValidChoices(width, choices)
    ensures |t| == |s| && t[begin + width - 1] == s[begin + choices[0]] && t[begin + choices[0]] == s[begin + width - 1]
    ensures forall k :: 0 <= k < |s| && k != begin + width - 1 && k != begin + choices[0] ==> t[k] == s[k]
    ensures ValidChoices(width - 1, choices[1..])
    ensures Shuffled(s, begin, width, choices) == Shuffled(t, begin, width - 1, choices[1..])
  {
    t := Swap(s, begin + choices[0], begin + width - 1);
  }

  // ---------------------------------------------------------------- each permutation once

  ghost predicate Distinct<E>(s: seq<E>, begin: int, width: int)
    requires 0 <= begin && begin + width <= |s|
  {
    forall i, j :: begin <= i < j < begin + width ==> s[i] != s[j]
  }

  /** The first choice is the element that ends up last. */
  lemma {:induction false} LastIsChosen<E>(s: seq<E>, begin: int, width: int, choices: seq<int>)
    requires 0 <= begin && 2 <= width && begin + width <= |s| && ValidChoices(width, choices)
    ensures Shuffled(s, begin, width, choices)[begin + width - 1] == s[begin + choices[0]]
  {
    ShuffledPermutes(Swap(s, begin + choices[0], begin + width - 1), begin, width - 1, choices[1..]);
  }

  lemma {:induction false} SwapDistinct<E>(s: seq<E>, begin: int, width: int, c: int)
    requires 0 <= begin && 2 <= width && begin + width <= |s| && Distinct(s, begin, width) && 0 <= c < width
    ensures Distinct(Swap(s, begin + c, begin + width - 1), begin, width - 1)
  {
    var t := Swap(s, begin + c, begin + width - 1);
    forall i, j | begin <= i < j < begin + width - 1 ensures t[i] != t[j] {
      assert s[i] != s[j] && s[i] != s[begin + width - 1] && s[j] != s[begin + width - 1];
    }
  }

  /** Different choices give different orders of distinct elements. */
  lemma {:induction false} ChoicesAreDetermined<E>(s: seq<E>, begin: int, width: int, a: seq<int>, b: seq<int>)
    requires 0 <= begin && begin + width <= |s| && ValidChoices(width, a) && ValidChoices(width, b)
    requires Distinct(s, begin, width)
    requires Shuffled(s, begin, width, a) == Shuffled(s, begin, width, b)
    ensures a == b
    decreases width
  {
    if width >= 2 {
      LastIsChosen(s, begin, width, a);
      LastIsChosen(s, begin, width, b);
      SameElement(s, begin, width, a[0], b[0]);
      SwapDistinct(s, begin, width, a[0]);
      ChoicesAreDetermined(Swap(s, begin + a[0], begin + width - 1), begin, width - 1, a[1..], b[1..]);
      assert a == [a[0]] + a[1..] && b == [b[0]] + b[1..];
    }
  }

  lemma {:induction false} SameElement<E>(s: seq<E>, begin: int, width: int, i: int, j: int)
    requires 0 <= begin && begin + width <= |s| && Distinct(s, begin, width)
    requires 0 <= i < width && 0 <= j < width && s[begin + i] == s[begin + j]
    ensures i == j
  {}

  /** Every order of the range is reached by some choices. */
  lemma {:induction false} EveryOrderIsReached<E>(s: seq<E>, target: seq<E>, begin: int, width: int)
    returns (choices: seq<int>)
    requires 0 <= begin && 0 <= width && begin + width <= |s|
    requires SameOutside(s, target, begin, width)
    requires multiset(s[begin..begin + width]) == multiset(target[begin..begin + width])
    ensures ValidChoices(width, choices) && Shuffled(s, begin, width, choices) == target
    decreases width
  {
    if width < 2 {
      choices := [];
      NarrowRange(s, target, begin, width);
    } else {
      var c := FindChoice(s, target, begin, width);
      SwapInRange(s, target, begin, width, c);
      var rest := EveryOrderIsReached(Swap(s, begin + c, begin + width - 1), target, begin, width - 1);
      choices := [c] + rest;
      FirstChoice(s, target, begin, width, c, rest);
    }
  }

  lemma {:induction false} NarrowRange<E>(s: seq<E>, target: seq<E>, begin: int, width: int)
    requires 0 <= begin && 0 <= width < 2 && begin + width <= |s|
    requires SameOutside(s, target, begin, width)
    requires multiset(s[begin..begin + width]) == multiset(target[begin..begin + width])
    ensures s == target
  {
    if width == 1 {
      var c := FindChoice(s, target, begin, width);
    }
  }

  lemma {:induction false} FirstChoice<E>(s: seq<E>, target: seq<E>, begin: int, width: int, c: int, rest: seq<int>)
    requires 0 <= begin && 2 <= width && begin + width <= |s| && 0 <= c < width && ValidChoices(width - 1, rest)
    requires Shuffled(Swap(s, begin + c, begin + width - 1), begin, width - 1, rest) == target
    ensures ValidChoices(width, [c] + rest) && Shuffled(s, begin, width, [c] + rest) == target
  {
    assert ([c] + rest)[1..] == rest;
  }

  lemma {:induction false} FindChoice<E>(s: seq<E>, target: seq<E>, begin: int, width: int) returns (c: int)
    requires 0 <= begin && 1 <= width && begin + width <= |s| == |target|
    requires multiset(s[begin..begin + width]) == multiset(target[begin..begin + width])
    ensures 0 <= c < width && s[begin + c] == target[begin + width - 1]
  {
    var wanted := target[begin + width - 1];
    assert wanted == target[begin..begin + width][width - 1];
    assert wanted in multiset(target[begin..begin + width]);
    assert wanted in s[begin..begin + width];
    c :| 0 <= c < width && s[begin..begin + width][c] == wanted;
  }

  /** After the right swap the last elements agree and the shorter ranges hold the same elements. */
  lemma {:induction false} SwapInRange<E>(s: seq<E>, target: seq<E>, begin: int, width: int, c: int)
    requires 0 <= begin && 2 <= width && begin + width <= |s| && 0 <= c < width
    requires SameOutside(s, target, begin, width) && s[begin + c] == target[begin + width - 1]
    requires multiset(s[begin..begin + width]) == multiset(target[begin..begin + width])
    ensures var t := Swap(s, begin + c, begin + width - 1);
            && SameOutside(t, target, begin, width - 1)
            && multiset(t[begin..begin + width - 1]) == multiset(target[begin..begin + width - 1])
  {
    var last := begin + width - 1;
    var t := Swap(s, begin + c, last);
    var range, goal := s[begin..begin + width], target[begin..begin + width];
    var swapped := Swap(range, c, width - 1);
    SwapPermutes(range, c, width - 1);
    SwapInside(s, begin, width, c, range, swapped, t);
    SwapOutside(s, target, begin, width, c, t);
    assert goal[..width - 1] == target[begin..last] && goal[width - 1] == target[last];
    DropLast(swapped, goal);
  }

  lemma {:induction false} SwapOutside<E>(s: seq<E>, target: seq<E>, begin: int, width: int, c: int, t: seq<E>)
    requires 0 <= begin && 2 <= width && begin + width <= |s| && 0 <= c < width
    requires SameOutside(s, target, begin, width) && s[begin + c] == target[begin + width - 1]
    requires t == Swap(s, begin + c, begin + width - 1)
    ensures SameOutside(t, target, begin, width - 1)
  {
  }

  /** Swapping in the whole is swapping in the range. */
  lemma {:induction false} SwapInside<E>(s: seq<E>, begin: int, width: int, c: int, range: seq<E>, swapped: seq<E>,
                                         t: seq<E>)
    requires 0 <= begin && 2 <= width && begin + width <= |s| && 0 <= c < width
    requires range == s[begin..begin + width] && swapped == Swap(range, c, width - 1)
    requires t == Swap(s, begin + c, begin + width - 1)
    ensures t[begin..begin + width - 1] == swapped[..width - 1] && swapped[width - 1] == t[begin + width - 1]
  {
    forall k | 0 <= k < width
      ensures swapped[k] == t[begin + k]
    {
    }
  }

  lemma {:induction false} DropLast<E>(a: seq<E>, b: seq<E>)
    requires |a| == |b| > 0 && a[|a| - 1] == b[|b| - 1] && multiset(a) == multiset(b)
    ensures multiset(a[..|a| - 1]) == multiset(b[..|b| - 1])
  {
    assert a == a[..|a| - 1] + [a[|a| - 1]];
    assert b == b[..|b| - 1] + [b[|b| - 1]];
    assert multiset(a[..|a| - 1]) == multiset(a) - multiset{a[|a| - 1]};
  }
}
