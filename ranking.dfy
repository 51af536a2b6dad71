/**
  `sorted(items, key=score, reverse=True)` followed by a `[:n]` slice.
  Python's sort is stable and `reverse=True` keeps it stable, so the result
  orders positions by descending score and, among equal scores, by position.
  The ranking below is an insertion sort on positions; RankedIsUnique shows
  that every ordering with that property is the same sequence.
 */
module Ranking {
  import opened Lists

  /** Position i comes before position j: a higher score, or an equal score and an earlier position. */
  predicate Before(score: seq<real>, i: nat, j: nat)
    requires i < |score| && j < |score|
  {
    score[i] > score[j] || (score[i] == score[j] && i < j)
  }

  predicate InRange(score: seq<real>, s: seq<nat>) {
    forall k :: 0 <= k < |s| ==> s[k] < |score|
  }

  predicate Ranked(score: seq<real>, s: seq<nat>)
    requires InRange(score, s)
  {
    forall a, b :: 0 <= a < b < |s| ==> Before(score, s[a], s[b])
  }

  lemma BeforeTransitive(score: seq<real>, i: nat, j: nat, k: nat)
    requires i < |score| && j < |score| && k < |score|
    requires Before(score, i, j) && Before(score, j, k)
    ensures Before(score, i, k)
  {
  }

  /** A head that comes before every later entry extends a ranking. */
  lemma RankedCons(score: seq<real>, h: nat, rest: seq<nat>)
    requires h < |score| && InRange(score, rest) && Ranked(score, rest)
    requires forall b :: 0 <= b < |rest| ==> Before(score, h, rest[b])
    ensures InRange(score, [h] + rest) && Ranked(score, [h] + rest)
  {
    var r := [h] + rest;
    forall a, b | 0 <= a < b < |r| ensures Before(score, r[a], r[b]) {
      if a > 0 {
        assert r[a] == rest[a - 1] && r[b] == rest[b - 1];
      }
    }
  }

  /** x before the head of a ranking comes before all of it. */
  lemma BeforeHeadBeforeAll(score: seq<real>, x: nat, s: seq<nat>)
    requires x < |score| && InRange(score, s) && Ranked(score, s) && s != [] && Before(score, x, s[0])
    ensures forall b :: 0 <= b < |s| ==> Before(score, x, s[b])
  {
    forall b | 0 < b < |s| ensures Before(score, x, s[b]) {
      BeforeTransitive(score, x, s[0], s[b]);
    }
  }

  /** When x does not come before the head, the head still comes before x and everything after it. */
  lemma HeadBeforeInserted(score: seq<real>, x: nat, s: seq<nat>, rest: seq<nat>)
    requires x < |score| && InRange(score, s) && Ranked(score, s) && s != [] && x != s[0]
    requires !Before(score, x, s[0])
    requires InRange(score, rest) && multiset(rest) == multiset(s[1..]) + multiset{x}
    ensures forall b :: 0 <= b < |rest| ==> Before(score, s[0], rest[b])
  {
    forall b | 0 <= b < |rest| ensures Before(score, s[0], rest[b]) {
      assert rest[b] in multiset(rest);
      if rest[b] != x {
        assert rest[b] in multiset(s[1..]);
        var k :| 0 <= k < |s[1..]| && s[1..][k] == rest[b];
        assert s[k + 1] == rest[b];
      }
    }
  }

  /** Insert position x into a ranked sequence that does not hold it. */
  function Insert(score: seq<real>, x: nat, s: seq<nat>): (r: seq<nat>)
    requires x < |score| && InRange(score, s) && Ranked(score, s) && x !in s
    ensures InRange(score, r) && Ranked(score, r)
    ensures multiset(r) == multiset(s) + multiset{x}
  {
    if s == [] then [x]
    else if Before(score, x, s[0]) then
      BeforeHeadBeforeAll(score, x, s);
      RankedCons(score, x, s);
      [x] + s
    else
      assert s == [s[0]] + s[1..];
      var rest := Insert(score, x, s[1..]);
      HeadBeforeInserted(score, x, s, rest);
      RankedCons(score, s[0], rest);
      [s[0]] + rest
  }

  /** Rank the distinct positions `s`, taken in order (a stable insertion sort). */
  function Sort(score: seq<real>, s: seq<nat>): (r: seq<nat>)
    requires InRange(score, s) && Distinct(s)
    ensures InRange(score, r) && Ranked(score, r)
    ensures multiset(r) == multiset(s)
  {
    if s == [] then []
    else
      var init := s[..|s| - 1];
      var last := s[|s| - 1];
      assert s == init + [last];
      var sorted := Sort(score, init);
      assert last !in multiset(init);
      Insert(score, last, sorted)
  }

  /** [0, 1, ..., n-1] */
  function Positions(n: nat): (r: seq<nat>)
    ensures |r| == n && forall k :: 0 <= k < n ==> r[k] == k
  {
    seq(n, k requires 0 <= k < n => k)
  }

  /** All positions of `score`, best first. */
  function Rank(score: seq<real>): (r: seq<nat>)
    ensures InRange(score, r) && Ranked(score, r)
    ensures multiset(r) == multiset(Positions(|score|))
    ensures |r| == |score|
  {
    var r := Sort(score, Positions(|score|));
    assert |multiset(r)| == |multiset(Positions(|score|))|;
    r
  }

  lemma RankedIsDistinct(score: seq<real>, s: seq<nat>)
    requires InRange(score, s) && Ranked(score, s)
    ensures Distinct(s)
  {
  }

  /** The head of a ranked sequence comes before every other position in it. */
  lemma HeadComesFirst(score: seq<real>, s: seq<nat>, x: nat)
    requires InRange(score, s) && Ranked(score, s) && x in s
    ensures x < |score| && (s[0] == x || Before(score, s[0], x))
  {
    var i :| 0 <= i < |s| && s[i] == x;
  }

  lemma TailMultiset(s: seq<nat>)
    requires s != []
    ensures multiset(s[1..]) == multiset(s) - multiset{s[0]}
  {
    assert s == [s[0]] + s[1..];
  }

  /** Two ranked orderings of the same positions are the same sequence. */
  lemma {:induction false} RankedIsUnique(score: seq<real>, s: seq<nat>, t: seq<nat>)
    requires InRange(score, s) && Ranked(score, s)
    requires InRange(score, t) && Ranked(score, t)
    requires multiset(s) == multiset(t)
    ensures s == t
  {
    if s != [] {
      assert |t| == |s| by {
        assert |multiset(s)| == |s| && |multiset(t)| == |t|;
      }
      assert t[0] in multiset(s);
      assert s[0] in multiset(t);
      HeadComesFirst(score, s, t[0]);
      HeadComesFirst(score, t, s[0]);
      assert s[0] == t[0];
      TailMultiset(s);
      TailMultiset(t);
      RankedIsUnique(score, s[1..], t[1..]);
    }
  }

  /** Python's `s[:n]`: a negative bound counts from the end. */
  function PrefixSlice<T>(s: seq<T>, n: int): (r: seq<T>)
    ensures 0 <= n ==> |r| == if n < |s| then n else |s|
    ensures n < 0 ==> |r| == if |s| + n > 0 then |s| + n else 0
    ensures r == s[..|r|]
  {
    if n >= 0 then s[..if n < |s| then n else |s|]
    else s[..if |s| + n > 0 then |s| + n else 0]
  }

  /** The names of `names`, best score first; the first `n` of them. */
  function TopByScore(names: seq<string>, score: seq<real>, n: int): (r: seq<string>)
    requires |names| == |score|
    ensures |r| <= |names| && (n >= 0 ==> |r| == if n < |names| then n else |names|)
    ensures forall k :: 0 <= k < |r| ==> r[k] == names[Rank(score)[k]]
  {
    var order := Rank(score);
    var chosen := PrefixSlice(order, n);
    seq(|chosen|, k requires 0 <= k < |chosen| => names[chosen[k]])
  }

  /** The top-n names are among the names scored. */
  lemma TopByScoreMembers(names: seq<string>, score: seq<real>, n: int)
    requires |names| == |score|
    ensures forall f :: f in TopByScore(names, score, n) ==> f in names
  {
    var r := TopByScore(names, score, n);
    forall f | f in r
      ensures f in names
    {
      var k :| 0 <= k < |r| && r[k] == f;
      assert Rank(score)[k] < |names|;
    }
  }

  /**
    What the top-n means: every chosen position outranks every position
    left out, and the chosen ones come best first with ties in original order.
   */
  lemma TopOutranksRest(score: seq<real>, n: nat, a: nat, b: nat)
    requires a < n && a < b < |score|
    ensures Rank(score)[a] < |score| && Rank(score)[b] < |score|
    ensures Before(score, Rank(score)[a], Rank(score)[b])
  {
  }

  /** Position j holds a maximum of xs, and no earlier position does. */
  predicate IsFirstMax(xs: seq<real>, j: nat) {
    && j < |xs|
    && (forall k :: 0 <= k < |xs| ==> xs[k] <= xs[j])
    && (forall k :: 0 <= k < j ==> xs[k] < xs[j])
  }

  /** `np.argmax` */
  function ArgMax(xs: seq<real>): (r: nat)
    requires |xs| > 0
    ensures IsFirstMax(xs, r)
  {
    if |xs| == 1 then 0
    else
      var m := ArgMax(xs[..|xs| - 1]);
      assert forall k :: 0 <= k < |xs| - 1 ==> xs[..|xs| - 1][k] == xs[k];
      if xs[|xs| - 1] > xs[m] then |xs| - 1 else m
  }

  /** There is only one first maximum, so every first maximum is the one `np.argmax` reports. */
  lemma FirstMaxIsArgMax(xs: seq<real>, j: nat)
    requires IsFirstMax(xs, j)
    ensures j == ArgMax(xs)
  {
    var m := ArgMax(xs);
  }
}
