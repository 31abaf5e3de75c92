/** Hand predictions as the detector returns them, and the selection step of
    a tracking cycle: keep the confident predictions and use at most the first
    two of them, in detector order. */
module Detection {

  /** Minimum score a prediction needs to move a slider (HAND_SCORE_THRESHOLD). */
  const HandScoreThreshold: real := 0.6

  /** At most this many predictions are used per cycle. */
  const MaxHands: nat := 2

  /** Bounding box in canvas pixels: top-left corner, width and height. */
  datatype Box = Box(x: real, y: real, width: real, height: real)

  /** One detector result. The detector's class label is always "hand" and
      plays no part in the control logic. */
  datatype HandPrediction = HandPrediction(bbox: Box, score: real)

  /** The score filter; the boundary score 0.6 itself passes. */
  predicate Qualifies(p: HandPrediction)
  {
    p.score >= HandScoreThreshold
  }

  /** The predictions that pass the score filter, in detector order. */
  function Filter(ps: seq<HandPrediction>): (r: seq<HandPrediction>)
    ensures |r| <= |ps|
    ensures forall i :: 0 <= i < |r| ==> Qualifies(r[i]) && r[i] in ps
    ensures forall i :: 0 <= i < |ps| && Qualifies(ps[i]) ==> ps[i] in r
  {
    if ps == [] then []
    else if Qualifies(ps[0]) then [ps[0]] + Filter(ps[1..])
    else Filter(ps[1..])
  }

  /** The first `n` elements of `s`, or all of them when there are fewer. */
  function Take<T>(s: seq<T>, n: nat): (r: seq<T>)
    ensures |r| == if |s| < n then |s| else n
    ensures r <= s
  {
    if |s| <= n then s else s[..n]
  }

  /** The predictions a cycle acts on: the first two that pass the filter. */
  function Selection(ps: seq<HandPrediction>): (r: seq<HandPrediction>)
    ensures |r| == if |Filter(ps)| < MaxHands then |Filter(ps)| else MaxHands
    ensures r <= Filter(ps)
  {
    Take(Filter(ps), MaxHands)
  }

  /** Filtering distributes over concatenation: it keeps order and never
      moves a prediction across another. */
  lemma {:induction false} FilterAppend(a: seq<HandPrediction>, b: seq<HandPrediction>)
    ensures Filter(a + b) == Filter(a) + Filter(b)
    decreases |a|
  {
    if a == [] {
      assert a + b == b;
    } else {
      assert (a + b)[1..] == a[1..] + b;
      FilterAppend(a[1..], b);
    }
  }

  /** The filter drops exactly the predictions below the threshold. */
  lemma FilterSingleton(p: HandPrediction)
    ensures Filter([p]) == if Qualifies(p) then [p] else []
  {
    assert [p][1..] == [];
  }

  /** The filter leaves nothing exactly when no prediction reaches the
      threshold. */
  lemma {:induction false} FilterEmptyIff(ps: seq<HandPrediction>)
    ensures Filter(ps) == [] <==> forall i :: 0 <= i < |ps| ==> !Qualifies(ps[i])
  {
    if Filter(ps) != [] {
      var p := Filter(ps)[0];
      assert Qualifies(p) && p in ps;
      var i :| 0 <= i < |ps| && ps[i] == p;
      assert Qualifies(ps[i]);
    }
  }

  /** A prediction below the threshold has no effect on the selection,
      wherever it stands. */
  lemma LowScoreIrrelevant(a: seq<HandPrediction>, p: HandPrediction, b: seq<HandPrediction>)
    requires !Qualifies(p)
    ensures Selection(a + [p] + b) == Selection(a + b)
  {
    FilterAppend(a + [p], b);
    FilterAppend(a, [p]);
    FilterAppend(a, b);
    FilterSingleton(p);
  }

  /** Once two predictions have passed the filter, later ones are ignored. */
  lemma LaterPredictionsIgnored(a: seq<HandPrediction>, b: seq<HandPrediction>)
    requires |Filter(a)| >= MaxHands
    ensures Selection(a + b) == Selection(a)
  {
    FilterAppend(a, b);
    assert (Filter(a) + Filter(b))[..MaxHands] == Filter(a)[..MaxHands];
  }

  /** The first qualifying prediction in detector order is the first hand,
      whatever the scores of the later ones. */
  lemma FirstQualifyingLeads(a: seq<HandPrediction>, p: HandPrediction, b: seq<HandPrediction>)
    requires forall i :: 0 <= i < |a| ==> !Qualifies(a[i])
    requires Qualifies(p)
    ensures |Selection(a + [p] + b)| >= 1 && Selection(a + [p] + b)[0] == p
  {
    FilterEmptyIff(a);
    FilterAppend(a + [p], b);
    FilterAppend(a, [p]);
    FilterSingleton(p);
  }

  /** A single qualifying prediction is the only hand. */
  lemma OnlyQualifyingSelected(a: seq<HandPrediction>, p: HandPrediction, b: seq<HandPrediction>)
    requires forall i :: 0 <= i < |a| ==> !Qualifies(a[i])
    requires forall i :: 0 <= i < |b| ==> !Qualifies(b[i])
    requires Qualifies(p)
    ensures Selection(a + [p] + b) == [p]
  {
    FilterEmptyIff(a);
    FilterEmptyIff(b);
    FilterSingleton(p);
    FilterAppend(a + [p], b);
    FilterAppend(a, [p]);
  }

  /** The threshold is inclusive and monotone in the score: 0.6 passes,
      anything below it fails, and a higher score never fails where a lower
      one passes. */
  lemma ScoreThreshold(p: HandPrediction, q: HandPrediction)
    ensures p.score == 0.6 ==> Qualifies(p)
    ensures p.score < 0.6 ==> !Qualifies(p)
    ensures Qualifies(p) && q.score >= p.score ==> Qualifies(q)
  {
  }

  /** The two hands are the first two qualifying predictions in detector
      order; a higher score further on does not displace them. */
  lemma FirstTwoQualifyingSelected(a: seq<HandPrediction>, p: HandPrediction, b: seq<HandPrediction>,
                                   q: HandPrediction, c: seq<HandPrediction>)
    requires forall i :: 0 <= i < |a| ==> !Qualifies(a[i])
    requires forall i :: 0 <= i < |b| ==> !Qualifies(b[i])
    requires Qualifies(p) && Qualifies(q)
    ensures Selection(a + [p] + b + [q] + c) == [p, q]
  {
    FilterEmptyIff(a);
    FilterEmptyIff(b);
    FilterSingleton(p);
    FilterSingleton(q);
    FilterAppend(a + [p] + b + [q], c);
    FilterAppend(a + [p] + b, [q]);
    FilterAppend(a + [p], b);
    FilterAppend(a, [p]);
  }

  /** The selection step as a single left-to-right scan that stops as soon
      as two hands are found. */
  method SelectHands(ps: seq<HandPrediction>) returns (hands: seq<HandPrediction>)
    ensures hands == Selection(ps)
  {
    hands := [];
    var i := 0;
    while i < |ps| && |hands| < MaxHands
      invariant 0 <= i <= |ps|
      invariant hands == Filter(ps[..i])
      invariant |hands| <= MaxHands
    {
      FilterAppend(ps[..i], [ps[i]]);
      FilterSingleton(ps[i]);
      assert ps[..i + 1] == ps[..i] + [ps[i]];
      if Qualifies(ps[i]) {
        hands := hands + [ps[i]];
      }
      i := i + 1;
    }
    assert ps == ps[..i] + ps[i..];
    if i == |ps| {
      assert ps[..i] == ps;
    } else {
      LaterPredictionsIgnored(ps[..i], ps[i..]);
    }
  }
}
