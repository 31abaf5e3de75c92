/** From a bounding box on the hand canvas to a point in latent space. Each
    axis is mapped on its own: the box centre is taken relative to the canvas
    centre, divided by the canvas extent and scaled by 3.5 * 2.3. */
module Mapping {
  import opened Sliders
  import opened Detection

  /** Widens the mapped range beyond the slider bound, so that a hand near
      the canvas edge reaches past the slider's end. */
  const RangeStretch: real := 2.3

  /** Latent units per canvas extent: 3.5 * 2.3. */
  const Gain: real := SliderThreshold * RangeStretch

  /** Half the latent span a full canvas extent covers: 4.025. */
  const Reach: real := Gain / 2.0

  /** Pixel size of the hand canvas. */
  datatype Canvas = Canvas(width: nat, height: nat)

  /** The mapping divides by the canvas size, so both sides must be
      positive. */
  predicate ValidCanvas(c: Canvas)
  {
    c.width > 0 && c.height > 0
  }

  /** A point of one slider pair: (value of slider 2k, value of slider 2k+1). */
  datatype Point = Point(x: real, y: real)

  /** One axis of the mapping: `(pos + size/2 - extent/2) / extent * 3.5 * 2.3`.
      The box centre is recovered from the result, and the canvas centre maps
      to 0. */
  function AxisToLatent(pos: real, size: real, extent: nat): (v: real)
    requires extent > 0
    ensures LatentToCentre(v, extent) == pos + size / 2.0
    ensures pos + size / 2.0 == extent as real / 2.0 ==> v == 0.0
  {
    var e := extent as real;
    var d := pos + size / 2.0 - e / 2.0;
    var v := d / e * SliderThreshold * RangeStretch;
    assert v == d / e * Gain;
    assert v / Gain == d / e;
    assert d / e * e == d;
    v
  }

  /** The inverse of one axis: the box centre that maps to latent value `v`. */
  function LatentToCentre(v: real, extent: nat): (centre: real)
    requires extent > 0
  {
    v / Gain * extent as real + extent as real / 2.0
  }

  /** The latent point a detection steers towards: each coordinate encodes
      the box centre on its own axis. */
  function LatentOf(b: Box, c: Canvas): (p: Point)
    requires ValidCanvas(c)
    ensures LatentToCentre(p.x, c.width) == b.x + b.width / 2.0
    ensures LatentToCentre(p.y, c.height) == b.y + b.height / 2.0
  {
    Point(AxisToLatent(b.x, b.width, c.width), AxisToLatent(b.y, b.height, c.height))
  }

  /** A box centred on the canvas maps to the latent origin, whatever the
      canvas size. */
  lemma CentreMapsToOrigin(b: Box, c: Canvas)
    requires ValidCanvas(c)
    requires b.x + b.width / 2.0 == c.width as real / 2.0
    requires b.y + b.height / 2.0 == c.height as real / 2.0
    ensures LatentOf(b, c) == Point(0.0, 0.0)
  {
  }

  /** The axis mapping and its inverse undo each other in both directions. */
  lemma AxisRoundTrip(pos: real, size: real, v: real, extent: nat)
    requires extent > 0
    ensures LatentToCentre(AxisToLatent(pos, size, extent), extent) == pos + size / 2.0
    ensures AxisToLatent(LatentToCentre(v, extent) - size / 2.0, size, extent) == v
  {
    var e := extent as real;
    var cv := LatentToCentre(v, extent);
    assert cv - size / 2.0 + size / 2.0 == cv;
    assert (cv - e / 2.0) == v / Gain * e;
    assert v / Gain * e / e == v / Gain;
    assert v / Gain * Gain == v;
  }

  /** The axis mapping is strictly increasing in the box centre: moving a
      hand right (down) moves its latent coordinate up. */
  lemma AxisMonotone(pos1: real, size1: real, pos2: real, size2: real, extent: nat)
    requires extent > 0
    requires pos1 + size1 / 2.0 < pos2 + size2 / 2.0
    ensures AxisToLatent(pos1, size1, extent) < AxisToLatent(pos2, size2, extent)
  {
    var e := extent as real;
    var d1 := pos1 + size1 / 2.0 - e / 2.0;
    var d2 := pos2 + size2 / 2.0 - e / 2.0;
    assert d1 / e < d2 / e;
    assert d1 / e * Gain < d2 / e * Gain;
  }

  /** A centre inside the canvas maps into [-4.025, 4.025]; the canvas
      edges reach the ends of that interval, beyond the slider bound 3.5. */
  lemma AxisReach(pos: real, size: real, extent: nat)
    requires extent > 0
    requires 0.0 <= pos + size / 2.0 <= extent as real
    ensures -Reach <= AxisToLatent(pos, size, extent) <= Reach
    ensures pos + size / 2.0 == 0.0 ==> AxisToLatent(pos, size, extent) == -Reach
    ensures pos + size / 2.0 == extent as real ==> AxisToLatent(pos, size, extent) == Reach
    ensures Reach > SliderThreshold
  {
    var e := extent as real;
    var cx := pos + size / 2.0;
    var d := cx - e / 2.0;
    assert 0.0 <= cx <= e;
    assert -e / 2.0 <= d by {
      assert d - (-e / 2.0) == cx;
    }
    assert d <= e / 2.0 by {
      assert e / 2.0 - d == e - cx;
    }
    assert AxisToLatent(pos, size, extent) == d / e * Gain;
    DivKeepsOrder(-e / 2.0, d, e);
    DivKeepsOrder(d, e / 2.0, e);
    assert -e / 2.0 / e == -0.5 && e / 2.0 / e == 0.5;
    AxisMonotoneInRatio(d / e, -0.5);
    AxisMonotoneInRatio(0.5, d / e);
    if pos + size / 2.0 == 0.0 {
      assert d == -e / 2.0;
    }
    if pos + size / 2.0 == e {
      assert d == e / 2.0;
    }
  }

  /** Dividing by a positive extent keeps order. */
  lemma DivKeepsOrder(a: real, b: real, e: real)
    requires a <= b && e > 0.0
    ensures a / e <= b / e
  {
    assert b / e - a / e == (b - a) / e;
  }

  /** Scaling by the positive gain keeps order. */
  lemma AxisMonotoneInRatio(a: real, b: real)
    requires b <= a
    ensures b * Gain <= a * Gain
  {
  }

  /** Each latent coordinate depends only on its own axis of the box: moving
      the box vertically leaves the latent x unchanged, and vice versa. */
  lemma AxesIndependent(b1: Box, b2: Box, c: Canvas)
    requires ValidCanvas(c)
    ensures b1.x == b2.x && b1.width == b2.width ==> LatentOf(b1, c).x == LatentOf(b2, c).x
    ensures b1.y == b2.y && b1.height == b2.height ==> LatentOf(b1, c).y == LatentOf(b2, c).y
  {
  }
}
