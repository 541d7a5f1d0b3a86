/**
  The crop recommendation step: from the classifier's probability vector,
  the indices of the (at most) three most probable classes in descending
  order, and the session entries the step writes.

  The source sorts the indices by ascending probability, keeps the last three
  and reverses them. With equal probabilities kept in index order by the
  ascending sort, reversing puts the higher index first; `Ahead` is that
  order, and it is total, so the three indices are determined uniquely.
 */
module Ranking {
  import opened Common
  import opened Session

  /** Class `i` ranks ahead of class `j`. */
  predicate Ahead(p: seq<real>, i: nat, j: nat)
    requires i < |p| && j < |p|
  {
    p[i] > p[j] || (p[i] == p[j] && i > j)
  }

  predicate InRange(p: seq<real>, r: seq<nat>)
  {
    forall a :: 0 <= a < |r| ==> r[a] < |p|
  }

  /** `r` lists classes of `p` in rank order, and every class it leaves out
      ranks behind every class it lists. */
  predicate Ranked(p: seq<real>, r: seq<nat>)
  {
    && InRange(p, r)
    && (forall a, b :: 0 <= a < b < |r| ==> Ahead(p, r[a], r[b]))
    && (forall a, j :: 0 <= a < |r| && 0 <= j < |p| && j !in r ==> Ahead(p, r[a], j))
  }

  /** Fewer than `n` indices cannot cover all of 0 .. n-1. */
  lemma SomeIndexOutside(r: seq<nat>, n: nat)
    requires |r| < n
    ensures exists j :: 0 <= j < n && j !in r
  {
    if forall j :: 0 <= j < n ==> j in r {
      CoverNeedsLength(r, n);
    }
  }

  /** A list that holds every index below `n` has at least `n` entries. */
  lemma {:induction false} CoverNeedsLength(r: seq<nat>, n: nat)
    requires forall j :: 0 <= j < n ==> j in r
    ensures |r| >= n
  {
    if n > 0 {
      assert n - 1 in r;
      var i :| 0 <= i < |r| && r[i] == n - 1;
      var rest := r[..i] + r[i + 1..];
      forall j | 0 <= j < n - 1
        ensures j in rest
      {
        assert j in r;
        var k :| 0 <= k < |r| && r[k] == j;
        if k < i {
          assert rest[k] == j;
        } else {
          assert rest[k - 1] == j;
        }
      }
      CoverNeedsLength(rest, n - 1);
    }
  }

  /** The best-ranked class that `r` does not list. */
  method BestOutside(p: seq<real>, r: seq<nat>) returns (b: nat)
    requires exists j :: 0 <= j < |p| && j !in r
    ensures b < |p| && b !in r
    ensures forall j :: 0 <= j < |p| && j !in r && j != b ==> Ahead(p, b, j)
  {
    var found := false;
    b := 0;
    var j := 0;
    while j < |p|
      invariant 0 <= j <= |p|
      invariant found ==> b < j && b !in r
      invariant found ==> forall k :: 0 <= k < j && k !in r && k != b ==> Ahead(p, b, k)
      invariant !found ==> forall k :: 0 <= k < j ==> k in r
    {
      if j !in r && (!found || !Ahead(p, b, j)) {
        b := j;
        found := true;
      }
      j := j + 1;
    }
  }

  /** np.argsort(p)[-3:][::-1]: the three best-ranked classes, best first, or
      all classes in rank order when there are fewer than three. The listed
      classes are distinct, their probabilities do not increase, the first
      has the highest probability of all, and no class left out has a higher
      probability than the last one listed. */
  method Top3(p: seq<real>) returns (r: seq<nat>)
    ensures |r| == Min(3, |p|)
    ensures Ranked(p, r)
    ensures forall a, b :: 0 <= a < b < |r| ==> r[a] != r[b]
    ensures forall a, b :: 0 <= a < b < |r| ==> p[r[a]] >= p[r[b]]
    ensures |r| > 0 ==> forall j :: 0 <= j < |p| ==> p[j] <= p[r[0]]
    ensures |r| > 0 ==> forall j :: 0 <= j < |p| && j !in r ==> p[j] <= p[r[|r| - 1]]
  {
    r := [];
    while |r| < 3 && |r| < |p|
      invariant |r| <= Min(3, |p|)
      invariant Ranked(p, r)
      decreases 3 - |r|
    {
      SomeIndexOutside(r, |p|);
      var b := BestOutside(p, r);
      r := r + [b];
    }
    forall j | 0 <= j < |p| && |r| > 0
      ensures p[j] <= p[r[0]]
    {
      if j in r {
        var a :| 0 <= a < |r| && r[a] == j;
        assert a == 0 || Ahead(p, r[0], r[a]);
      }
    }
  }

  /** Where two rankings first differ, the first one's entry ranks ahead of
      the second one's. */
  lemma FirstDifferenceAhead(p: seq<real>, r1: seq<nat>, r2: seq<nat>, a: nat)
    requires Ranked(p, r1) && Ranked(p, r2)
    requires a < |r1| && a < |r2| && r1[..a] == r2[..a] && r1[a] != r2[a]
    ensures Ahead(p, r1[a], r2[a])
  {
    var y := r2[a];
    if y in r1 {
      var b :| 0 <= b < |r1| && r1[b] == y;
      if b < a {
        assert false;
      }
    }
  }

  /** The ranking of a given length is unique: whatever computes it, the
      result equals the one `Top3` returns. */
  lemma RankedUnique(p: seq<real>, r1: seq<nat>, r2: seq<nat>)
    requires Ranked(p, r1) && Ranked(p, r2) && |r1| == |r2|
    ensures r1 == r2
  {
    var a := 0;
    while a < |r1|
      invariant a <= |r1| && r1[..a] == r2[..a]
    {
      if r1[a] != r2[a] {
        FirstDifferenceAhead(p, r1, r2, a);
        FirstDifferenceAhead(p, r2, r1, a);
        assert false;
      }
      assert r1[..a + 1] == r1[..a] + [r1[a]];
      assert r2[..a + 1] == r2[..a] + [r2[a]];
      a := a + 1;
    }
    assert r1 == r1[..a] && r2 == r2[..a];
  }

  /** The recommend button: stores the input record, ranks the classes by
      the classifier's probabilities for it, then stores the class names and
      probabilities of the top three (best first) and one explanation image
      per recommended crop; nothing else in the session changes. The
      classifier and the explainer are parameters: `probs` are its class
      probabilities for `features`, and `explain` draws a crop's image. */
  method Recommend(s: Store, features: seq<real>, classes: seq<string>, probs: seq<real>,
                   explain: string -> Bytes) returns (r: Store, top: seq<nat>)
    requires |classes| == |probs|
    ensures |top| == Min(3, |probs|) && Ranked(probs, top)
    ensures TopCrops in r && r[TopCrops].Texts? && |r[TopCrops].items| == |top|
    ensures forall a :: 0 <= a < |top| ==> r[TopCrops].items[a] == classes[top[a]]
    ensures TopConfidences in r && r[TopConfidences].Numbers? && |r[TopConfidences].values| == |top|
    ensures forall a :: 0 <= a < |top| ==> r[TopConfidences].values[a] == probs[top[a]]
    ensures InputFeatures in r && r[InputFeatures] == Numbers(features)
    ensures LimeExplanations in r && r[LimeExplanations].Images?
    ensures forall c :: c in r[LimeExplanations].byCrop <==> c in r[TopCrops].items
    ensures forall c :: c in r[LimeExplanations].byCrop ==> r[LimeExplanations].byCrop[c] == explain(c)
    ensures IsSet(r, TopCrops)
    ensures |probs| > 0 && WellTyped(s) ==> WellTyped(r)
    ensures SameOutside(s, r, {TopCrops, TopConfidences, InputFeatures, LimeExplanations})
  {
    top := Top3(probs);
    var crops := seq(|top|, a requires 0 <= a < |top| => classes[top[a]]);
    var confidences := seq(|top|, a requires 0 <= a < |top| => probs[top[a]]);
    var images := map c | c in crops :: explain(c);
    r := s[InputFeatures := Numbers(features)]
          [TopCrops := Texts(crops)]
          [TopConfidences := Numbers(confidences)]
          [LimeExplanations := Images(images)];
  }
}
