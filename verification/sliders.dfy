/** The slider bank of the landing page: one slider per latent dimension of
    the decoder, each with a display range and a current value. The bank is
    the single source of truth for the latent vector. */
module Sliders {

  /** Half-width of every slider's display range (SLIDER_THRESHOLD). */
  const SliderThreshold: real := 3.5

  /** Number of sliders, i.e. the dimension of the decoder's latent vector. */
  const SliderCount: nat := 4

  /** One slider: its display range and its current value. The range is a
      presentation concern; nothing clamps `value` into it. */
  datatype Slider = Slider(min: real, max: real, value: real)

  /** A bank holds exactly one slider per latent dimension. */
  predicate WellFormed(bank: seq<Slider>)
  {
    |bank| == SliderCount
  }

  /** Every slider still carries the range the bank was created with. */
  predicate DefaultRanges(bank: seq<Slider>)
  {
    forall k :: 0 <= k < |bank| ==> bank[k].min == -SliderThreshold && bank[k].max == SliderThreshold
  }

  /** The bank as created with the component: four sliders at 0 over
      [-3.5, 3.5]. */
  function Initial(): (bank: seq<Slider>)
    ensures WellFormed(bank)
    ensures DefaultRanges(bank)
    ensures forall k :: 0 <= k < |bank| ==> bank[k].value == 0.0
  {
    seq(SliderCount, _ => Slider(-SliderThreshold, SliderThreshold, 0.0))
  }

  /** The latent vector handed to the decoder: the sliders' values, in order. */
  function Values(bank: seq<Slider>): (z: seq<real>)
    ensures |z| == |bank|
    ensures forall k :: 0 <= k < |bank| ==> z[k] == bank[k].value
  {
    if bank == [] then [] else [bank[0].value] + Values(bank[1..])
  }

  /** Overwrites the value of slider `k` and keeps its range; every other
      slider is untouched. */
  function WithValue(bank: seq<Slider>, k: nat, v: real): (r: seq<Slider>)
    requires k < |bank|
    ensures |r| == |bank|
    ensures r[k].value == v && r[k].min == bank[k].min && r[k].max == bank[k].max
    ensures forall j :: 0 <= j < |bank| && j != k ==> r[j] == bank[j]
  {
    bank[k := bank[k].(value := v)]
  }

  /** Setting one slider changes exactly one entry of the latent vector and
      no range. */
  lemma {:induction false} WithValueSnapshot(bank: seq<Slider>, k: nat, v: real)
    requires k < |bank|
    ensures Values(WithValue(bank, k, v)) == Values(bank)[k := v]
    ensures DefaultRanges(bank) ==> DefaultRanges(WithValue(bank, k, v))
  {
    var r := WithValue(bank, k, v);
    assert forall j :: 0 <= j < |bank| ==> Values(r)[j] == Values(bank)[k := v][j];
  }
}
