/** The hand-to-slider assignment of one tracking cycle. Each selected hand,
    in detector order, claims the slider pair nearer to its latent point and
    overwrites both values of that pair. Pair A is sliders 0 and 1, pair B is
    sliders 2 and 3. A hand claims pair A only when strictly nearer to it; ties
    go to pair B. Each hand measures distances against the bank as the
    previous hand left it. */
module Assignment {
  import opened Sliders
  import opened Detection
  import opened Mapping

  /** First slider of a pair: 0 for pair A, 2 for pair B. */
  predicate IsPairStart(k: nat)
  {
    k == 0 || k == 2
  }

  /** The other pair. */
  function OtherPair(k: nat): (o: nat)
    requires IsPairStart(k)
    ensures IsPairStart(o) && o != k
  {
    2 - k
  }

  /** The current point of the pair starting at slider `k`. */
  function PairPoint(bank: seq<Slider>, k: nat): (p: Point)
    requires WellFormed(bank) && IsPairStart(k)
  {
    Point(bank[k].value, bank[k + 1].value)
  }

  /** Squared Euclidean distance, standing in for `Math.hypot`: it is never
      negative, vanishes exactly at equal points, and orders points as the
      distance does (see `SquaredDistanceOrdersAsHypot`). */
  function SqDist(a: Point, b: Point): (d: real)
    ensures d >= 0.0
    ensures d == 0.0 <==> a == b
  {
    var dx, dy := a.x - b.x, a.y - b.y;
    SquareSign(dx);
    SquareSign(dy);
    assert dx == 0.0 && dy == 0.0 ==> a == Point(b.x, b.y);
    dx * dx + dy * dy
  }

  /** A square is never negative, and is zero only at zero. */
  lemma SquareSign(x: real)
    ensures x * x >= 0.0
    ensures x * x == 0.0 <==> x == 0.0
  {
    if x < 0.0 {
      SquareStrictlyMonotone(0.0, -x);
      assert x * x == (-x) * (-x);
    } else if x > 0.0 {
      SquareStrictlyMonotone(0.0, x);
    }
  }

  /** The pair a hand at latent point `p` claims. */
  function TargetPair(bank: seq<Slider>, p: Point): (k: nat)
    requires WellFormed(bank)
    ensures IsPairStart(k)
    ensures SqDist(p, PairPoint(bank, k)) <= SqDist(p, PairPoint(bank, OtherPair(k)))
    ensures k == 0 ==> SqDist(p, PairPoint(bank, 0)) < SqDist(p, PairPoint(bank, 2))
  {
    if SqDist(p, PairPoint(bank, 0)) < SqDist(p, PairPoint(bank, 2)) then 0 else 2
  }

  /** Overwrites both values of the pair starting at `k` with `p`. */
  function WritePair(bank: seq<Slider>, k: nat, p: Point): (r: seq<Slider>)
    requires WellFormed(bank) && IsPairStart(k)
    ensures WellFormed(r)
    ensures PairPoint(r, k) == p
    ensures PairPoint(r, OtherPair(k)) == PairPoint(bank, OtherPair(k))
    ensures forall j :: 0 <= j < |bank| && j != k && j != k + 1 ==> r[j] == bank[j]
    ensures forall j :: 0 <= j < |bank| ==> r[j].min == bank[j].min && r[j].max == bank[j].max
  {
    WithValue(WithValue(bank, k, p.x), k + 1, p.y)
  }

  /** One hand's update: map its box to latent space, pick the nearer pair,
      overwrite that pair. */
  function AssignHand(bank: seq<Slider>, h: HandPrediction, c: Canvas): (r: seq<Slider>)
    requires WellFormed(bank) && ValidCanvas(c)
    ensures WellFormed(r)
    ensures PairPoint(r, TargetPair(bank, LatentOf(h.bbox, c))) == LatentOf(h.bbox, c)
    ensures var o := OtherPair(TargetPair(bank, LatentOf(h.bbox, c)));
            PairPoint(r, o) == PairPoint(bank, o) && r[o] == bank[o] && r[o + 1] == bank[o + 1]
    ensures forall j :: 0 <= j < |bank| ==> r[j].min == bank[j].min && r[j].max == bank[j].max
  {
    var p := LatentOf(h.bbox, c);
    WritePair(bank, TargetPair(bank, p), p)
  }

  /** The hands applied one after another, each against the bank the
      previous one left. */
  function AssignAll(bank: seq<Slider>, hands: seq<HandPrediction>, c: Canvas): (r: seq<Slider>)
    requires WellFormed(bank) && ValidCanvas(c)
    ensures WellFormed(r)
    ensures forall j :: 0 <= j < |bank| ==> r[j].min == bank[j].min && r[j].max == bank[j].max
    decreases |hands|
  {
    if hands == [] then bank
    else AssignAll(AssignHand(bank, hands[0], c), hands[1..], c)
  }

  /** The assignment step of `runDetection`: filter, take the first two, and
      apply them in order. */
  function AssignDetections(bank: seq<Slider>, ps: seq<HandPrediction>, c: Canvas): (r: seq<Slider>)
    requires WellFormed(bank) && ValidCanvas(c)
    ensures WellFormed(r)
    ensures forall j :: 0 <= j < |bank| ==> r[j].min == bank[j].min && r[j].max == bank[j].max
  {
    AssignAll(bank, Selection(ps), c)
  }

  /** Applying the hands of `a` and then those of `b` is applying `a + b`. */
  lemma {:induction false} AssignAllAppend(bank: seq<Slider>, a: seq<HandPrediction>, b: seq<HandPrediction>, c: Canvas)
    requires WellFormed(bank) && ValidCanvas(c)
    ensures AssignAll(bank, a + b, c) == AssignAll(AssignAll(bank, a, c), b, c)
    decreases |a|
  {
    if a == [] {
      assert a + b == b;
    } else {
      assert (a + b)[1..] == a[1..] + b;
      AssignAllAppend(AssignHand(bank, a[0], c), a[1..], b, c);
    }
  }

  /** Comparing squared distances picks the same pair as comparing the
      distances themselves: for any non-negative `d0`, `d1` whose squares are
      the squared distances, the hand claims pair A exactly when `d0 < d1`. */
  lemma SquaredDistanceOrdersAsHypot(bank: seq<Slider>, p: Point, d0: real, d1: real)
    requires WellFormed(bank)
    requires d0 >= 0.0 && d1 >= 0.0
    requires d0 * d0 == SqDist(p, PairPoint(bank, 0))
    requires d1 * d1 == SqDist(p, PairPoint(bank, 2))
    ensures TargetPair(bank, p) == 0 <==> d0 < d1
  {
    if d0 < d1 {
      SquareStrictlyMonotone(d0, d1);
      assert SqDist(p, PairPoint(bank, 0)) < SqDist(p, PairPoint(bank, 2));
    } else {
      SquareMonotone(d1, d0);
      assert SqDist(p, PairPoint(bank, 2)) <= SqDist(p, PairPoint(bank, 0));
    }
  }

  lemma SquareStrictlyMonotone(a: real, b: real)
    requires 0.0 <= a < b
    ensures a * a < b * b
  {
    var d := b - a;
    assert b * b == a * a + 2.0 * a * d + d * d;
    assert a * d >= 0.0;
    assert d * d > 0.0;
  }

  lemma SquareMonotone(a: real, b: real)
    requires 0.0 <= a <= b
    ensures a * a <= b * b
  {
    assert a * a <= a * b;
    assert a * b <= b * b;
  }

  /** Equidistant hands go to pair B. */
  lemma TieGoesToPairB(bank: seq<Slider>, p: Point)
    requires WellFormed(bank)
    requires SqDist(p, PairPoint(bank, 0)) == SqDist(p, PairPoint(bank, 2))
    ensures TargetPair(bank, p) == 2
  {
  }

  /** With both pairs at the origin, a hand at (1, 1) is equidistant from
      them and takes pair B. */
  lemma TieExample()
    ensures var bank := Initial();
            var p := Point(1.0, 1.0);
            TargetPair(bank, p) == 2 && WritePair(bank, 2, p)[0 .. 2] == bank[0 .. 2]
  {
  }

  /** When no prediction reaches the score threshold, the bank is returned
      unchanged. */
  lemma NoQualifyingIsNoOp(bank: seq<Slider>, ps: seq<HandPrediction>, c: Canvas)
    requires WellFormed(bank) && ValidCanvas(c)
    requires forall i :: 0 <= i < |ps| ==> !Qualifies(ps[i])
    ensures AssignDetections(bank, ps, c) == bank
  {
    FilterEmptyIff(ps);
  }

  /** Predictions below the threshold never influence the sliders. */
  lemma LowScoreHasNoEffect(bank: seq<Slider>, a: seq<HandPrediction>, p: HandPrediction,
                            b: seq<HandPrediction>, c: Canvas)
    requires WellFormed(bank) && ValidCanvas(c)
    requires !Qualifies(p)
    ensures AssignDetections(bank, a + [p] + b, c) == AssignDetections(bank, a + b, c)
  {
    LowScoreIrrelevant(a, p, b);
  }

  /** With a single qualifying hand, its pair takes the hand's point and the
      other pair keeps its sliders exactly. */
  lemma OneHandKeepsOtherPair(bank: seq<Slider>, ps: seq<HandPrediction>, h: HandPrediction, c: Canvas)
    requires WellFormed(bank) && ValidCanvas(c)
    requires Selection(ps) == [h]
    ensures var p := LatentOf(h.bbox, c);
            var k := TargetPair(bank, p);
            var r := AssignDetections(bank, ps, c);
            PairPoint(r, k) == p && r[OtherPair(k)] == bank[OtherPair(k)]
            && r[OtherPair(k) + 1] == bank[OtherPair(k) + 1]
  {
    var r1 := AssignHand(bank, h, c);
    assert [h][1..] == [];
    assert AssignAll(bank, [h], c) == AssignAll(r1, [], c) == r1;
  }

  /** Two hands: the second chooses against the bank after the first write.
      The second hand's pair ends at its point. If the two hands chose
      different pairs the first hand's pair keeps the first point; if they
      chose the same pair the second write wins and the other pair is left
      exactly as it was. */
  lemma TwoHandsOutcome(bank: seq<Slider>, ps: seq<HandPrediction>, h1: HandPrediction,
                        h2: HandPrediction, c: Canvas)
    requires WellFormed(bank) && ValidCanvas(c)
    requires Selection(ps) == [h1, h2]
    ensures var p1 := LatentOf(h1.bbox, c);
            var p2 := LatentOf(h2.bbox, c);
            var k1 := TargetPair(bank, p1);
            var k2 := TargetPair(WritePair(bank, k1, p1), p2);
            var r := AssignDetections(bank, ps, c);
            && PairPoint(r, k2) == p2
            && (k1 != k2 ==> PairPoint(r, k1) == p1)
            && (k1 == k2 ==> r[OtherPair(k1)] == bank[OtherPair(k1)]
                             && r[OtherPair(k1) + 1] == bank[OtherPair(k1) + 1])
  {
    var p1 := LatentOf(h1.bbox, c);
    var k1 := TargetPair(bank, p1);
    var mid := AssignHand(bank, h1, c);
    assert mid == WritePair(bank, k1, p1);
    var r := AssignHand(mid, h2, c);
    assert [h1, h2][1..] == [h2];
    assert [h2][1..] == [];
    assert AssignAll(bank, [h1, h2], c) == AssignAll(mid, [h2], c);
    assert AssignAll(mid, [h2], c) == AssignAll(r, [], c) == r;
  }

  /** The re-read matters: from A = (0, 0) and B = (2, 2), a first hand at
      (1.5, 1.5) moves B there, and a second hand at (0.9, 0.9), which was
      nearer to A before that write, then also takes B. */
  lemma SecondHandSeesFirstWrite()
    ensures var bank := WritePair(Initial(), 2, Point(2.0, 2.0));
            var p1 := Point(1.5, 1.5);
            var p2 := Point(0.9, 0.9);
            var mid := WritePair(bank, TargetPair(bank, p1), p1);
            TargetPair(bank, p1) == 2 && TargetPair(bank, p2) == 0 && TargetPair(mid, p2) == 2
  {
  }

  /** The assignment step as a single pass, equivalent to the filter, slice
      and `forEach` of `runDetection`: it skips low scores, stops after two
      hands, and updates the bank after each hand. */
  method RunAssignment(bank: seq<Slider>, ps: seq<HandPrediction>, c: Canvas) returns (r: seq<Slider>)
    requires WellFormed(bank) && ValidCanvas(c)
    ensures r == AssignDetections(bank, ps, c)
  {
    r := bank;
    var used := 0;
    var i := 0;
    while i < |ps| && used < MaxHands
      invariant 0 <= i <= |ps|
      invariant used == |Filter(ps[..i])| <= MaxHands
      invariant WellFormed(r)
      invariant r == AssignAll(bank, Filter(ps[..i]), c)
    {
      FilterAppend(ps[..i], [ps[i]]);
      FilterSingleton(ps[i]);
      assert ps[..i + 1] == ps[..i] + [ps[i]];
      if Qualifies(ps[i]) {
        AssignAllAppend(bank, Filter(ps[..i]), [ps[i]], c);
        assert [ps[i]][1..] == [];
        r := AssignHand(r, ps[i], c);
        used := used + 1;
      }
      i := i + 1;
    }
    assert ps == ps[..i] + ps[i..];
    if i == |ps| {
      assert ps[..i] == ps;
    } else {
      LaterPredictionsIgnored(ps[..i], ps[i..]);
    }
  }
}
