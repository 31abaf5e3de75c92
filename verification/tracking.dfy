/** The landing page's control loop as an event-driven state machine.

    `toggleVideo` either asks the camera to start (when not tracking) or
    stops tracking at once. The camera answers later with a status; only a
    true status turns tracking on and starts a detection cycle. A cycle ends
    when the detector's predictions arrive: the assignment step runs, the
    image is rendered, and a further cycle is scheduled only if tracking is
    still on. A `detect` call that rejects ends its cycle with nothing
    rendered and nothing rescheduled, since no error handler is attached;
    `isVideo` is left as it was. Stopping never cancels a cycle already in
    flight. Moving a slider by hand sets its value and renders. The decoder
    and the detector stay outside: a render is reported as the latent vector
    handed to the decoder, and a cycle's predictions arrive with its event. */
module Tracking {
  import opened Sliders
  import opened Detection
  import opened Mapping
  import opened Assignment

  /** The component's control state: the slider bank, `isVideo`, the
      camera-start requests not yet answered, and the detection cycles in
      flight (each a `detect` call or a scheduled `runDetection`). */
  datatype State = State(bank: seq<Slider>, isVideo: bool, pendingStarts: nat, cycles: nat)

  /** What can happen to the component. */
  datatype Event =
    | Toggle                                                  // the start/stop control
    | CameraStarted(status: bool)                             // `startVideo` resolved
    | DetectionDone(predictions: seq<HandPrediction>, canvas: Canvas)  // `detect` resolved
    | DetectionFailed                                         // `detect` rejected
    | SliderMoved(k: nat, v: real)                            // `slideSlider`

  /** A render: the latent vector passed to the decoder, or none. */
  datatype Frame = NoFrame | Frame(latent: seq<real>)

  /** The result of one event: the next state, what was rendered, and
      whether another detection cycle was scheduled. */
  datatype Outcome = Outcome(next: State, frame: Frame, scheduled: bool)

  /** The state after `ngOnInit`: default sliders, not tracking. */
  function Init(): (s: State)
    ensures WellFormed(s.bank) && DefaultRanges(s.bank)
    ensures !s.isVideo && s.pendingStarts == 0 && s.cycles == 0
  {
    State(Initial(), false, 0, 0)
  }

  /** Events that can occur in state `s`: a camera answer needs a request, a
      detection result needs a cycle in flight and a non-empty hand canvas,
      and a slider move names one of the four sliders. */
  predicate Enabled(s: State, e: Event)
  {
    match e
    case Toggle => true
    case CameraStarted(_) => s.pendingStarts > 0
    case DetectionDone(_, c) => s.cycles > 0 && ValidCanvas(c)
    case DetectionFailed => s.cycles > 0
    case SliderMoved(k, _) => k < SliderCount
  }

  /** One event. */
  function Step(s: State, e: Event): (o: Outcome)
    requires WellFormed(s.bank) && Enabled(s, e)
    ensures WellFormed(o.next.bank)
    ensures o.frame.Frame? <==> e.DetectionDone? || e.SliderMoved?
    ensures o.frame.Frame? ==> o.frame.latent == Values(o.next.bank)
    ensures o.scheduled ==> e.DetectionDone? && o.next.isVideo
    ensures !e.DetectionDone? && !e.SliderMoved? ==> o.next.bank == s.bank
  {
    match e
    case Toggle =>
      if !s.isVideo then Outcome(s.(pendingStarts := s.pendingStarts + 1), NoFrame, false)
      else Outcome(s.(isVideo := false), NoFrame, false)
    case CameraStarted(status) =>
      var s' := s.(pendingStarts := s.pendingStarts - 1);
      if status then Outcome(s'.(isVideo := true, cycles := s'.cycles + 1), NoFrame, false)
      else Outcome(s', NoFrame, false)
    case DetectionDone(ps, c) =>
      var bank := AssignDetections(s.bank, ps, c);
      if s.isVideo then Outcome(s.(bank := bank), Frame(Values(bank)), true)
      else Outcome(s.(bank := bank, cycles := s.cycles - 1), Frame(Values(bank)), false)
    case DetectionFailed =>
      Outcome(s.(cycles := s.cycles - 1), NoFrame, false)
    case SliderMoved(k, v) =>
      var bank := WithValue(s.bank, k, v);
      Outcome(s.(bank := bank), Frame(Values(bank)), false)
  }

  /** What every reachable state satisfies: four sliders with their initial
      ranges. A cycle in flight while tracking is not part of it: a rejected
      `detect` leaves `isVideo` true with no cycle running. */
  predicate Invariant(s: State)
  {
    WellFormed(s.bank) && DefaultRanges(s.bank)
  }

  lemma InitSatisfiesInvariant()
    ensures Invariant(Init())
  {
  }

  /** Every event keeps the invariant. */
  lemma StepPreservesInvariant(s: State, e: Event)
    requires Invariant(s) && Enabled(s, e)
    ensures Invariant(Step(s, e).next)
  {
    match e
    case SliderMoved(k, v) =>
      WithValueSnapshot(s.bank, k, v);
    case DetectionDone(ps, c) =>
    case DetectionFailed =>
    case Toggle =>
    case CameraStarted(_) =>
  }

  /** Toggling while tracking stops at once: `isVideo` becomes false, no
      frame is drawn, and the cycle in flight is left to finish. */
  lemma ToggleWhileTrackingStops(s: State)
    requires WellFormed(s.bank) && s.isVideo
    ensures var o := Step(s, Toggle);
            !o.next.isVideo && o.frame == NoFrame && o.next.cycles == s.cycles && o.next.bank == s.bank
  {
  }

  /** Toggling while idle starts tracking exactly when the camera reports
      success; otherwise tracking stays off and no cycle is started. */
  lemma ToggleWhileIdleNeedsCamera(s: State, status: bool)
    requires WellFormed(s.bank) && !s.isVideo
    ensures var t := Step(s, Toggle).next;
            && !t.isVideo && t.pendingStarts == s.pendingStarts + 1
            && var u := Step(t, CameraStarted(status)).next;
               && u.isVideo == status
               && u.cycles == (if status then s.cycles + 1 else s.cycles)
               && u.pendingStarts == s.pendingStarts
               && u.bank == s.bank
  {
  }

  /** A finished cycle always renders the bank the assignment left, and
      schedules the next cycle exactly when tracking is still on. */
  lemma CycleReschedulesOnlyWhileTracking(s: State, ps: seq<HandPrediction>, c: Canvas)
    requires WellFormed(s.bank) && s.cycles > 0 && ValidCanvas(c)
    ensures var o := Step(s, DetectionDone(ps, c));
            && o.scheduled == s.isVideo
            && o.next.bank == AssignDetections(s.bank, ps, c)
            && o.frame == Frame(Values(o.next.bank))
            && o.next.cycles == (if s.isVideo then s.cycles else s.cycles - 1)
  {
  }

  /** Stopping during the only cycle lets that cycle publish exactly one
      more frame; afterwards no cycle is in flight, so no further detection
      result can arrive. */
  lemma StopDuringCycleRendersOnce(s: State, ps: seq<HandPrediction>, c: Canvas)
    requires Invariant(s) && s.isVideo && s.cycles == 1 && ValidCanvas(c)
    ensures var t := Step(s, Toggle).next;
            var o := Step(t, DetectionDone(ps, c));
            && o.frame.Frame? && !o.scheduled
            && o.next.cycles == 0 && !o.next.isVideo
            && forall ps', c' :: !Enabled(o.next, DetectionDone(ps', c'))
  {
  }

  /** A rejected `detect` during the only cycle ends the chain while
      `isVideo` stays true: nothing is drawn or rescheduled, and no cycle is
      left to run. Tracking looks on but is frozen until it is toggled off
      and on again. */
  lemma FailedCycleFreezesTracking(s: State)
    requires Invariant(s) && s.isVideo && s.cycles == 1
    ensures var o := Step(s, DetectionFailed);
            && o.next.isVideo && o.frame == NoFrame && !o.scheduled
            && o.next.cycles == 0 && o.next.bank == s.bank
            && forall ps, c :: !Enabled(o.next, DetectionDone(ps, c))
  {
  }

  /** Stopping and restarting before the in-flight cycle ends leaves two
      detection cycles running side by side: both keep rescheduling. */
  lemma RestartDuringCycleRunsTwoCycles()
    ensures var s0 := Step(Step(Init(), Toggle).next, CameraStarted(true)).next;
            var s1 := Step(s0, Toggle).next;
            var s2 := Step(Step(s1, Toggle).next, CameraStarted(true)).next;
            s0.isVideo && s0.cycles == 1 && s2.isVideo && s2.cycles == 2
  {
  }

  /** A slider moved by hand while a cycle is in flight is overwritten if
      the cycle's hand claims that slider's pair: the manual value is lost. */
  lemma ManualMoveOverwrittenByCycle(s: State, k: nat, v: real, ps: seq<HandPrediction>,
                                     h: HandPrediction, c: Canvas)
    requires WellFormed(s.bank) && s.cycles > 0 && ValidCanvas(c) && k < SliderCount
    requires Selection(ps) == [h]
    requires var t := TargetPair(WithValue(s.bank, k, v), LatentOf(h.bbox, c));
             t <= k <= t + 1
    ensures var t := TargetPair(WithValue(s.bank, k, v), LatentOf(h.bbox, c));
            var p := LatentOf(h.bbox, c);
            var mid := Step(s, SliderMoved(k, v)).next;
            var r := Step(mid, DetectionDone(ps, c)).next.bank;
            r[k].value == (if k == t then p.x else p.y)
  {
    var mid := Step(s, SliderMoved(k, v)).next;
    OneHandKeepsOtherPair(mid.bank, ps, h, c);
  }
}
