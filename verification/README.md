# draw-mnist landing page: control logic in Dafny

This project models the control logic of the `LandingComponent` of draw-mnist. The page renders a 28 × 28 digit from a four-dimensional latent vector. The vector is held in four sliders. A user can set it by dragging the sliders or by moving up to two hands in front of the camera. The model covers three parts of `src/app/page/landing/landing.component.ts`:

- **Hand-to-slider assignment** (`runDetection`). Predictions scoring at least 0.6 are kept, and at most the first two of them in detector order are used. Each box centre is mapped to a latent point with `(c - W/2) / W * 3.5 * 2.3`, and each axis is mapped on its own. The point overwrites the slider pair it is nearer to. Pair A is sliders 0 and 1, pair B is sliders 2 and 3. A hand takes pair A only when it is strictly nearer to it, so ties go to pair B. The second hand compares distances against the bank as the first hand left it.
- **Rasterisation** (`predict`). The decoder output is a flat row-major array of 784 values. Cell (x, y) reads entry `y*28 + x` and is drawn as one 5 × 5 rectangle at (5x, 5y). Its grey level is the value times 255, with no clamping.
- **Tracking loop** (`toggleVideo`, `startVideo`, the end of `runDetection`, `slideSlider`). This is an event machine over the slider bank, `isVideo`, the camera-start requests still pending, and the detection cycles in flight.

Modules and files:

- `sliders.dfy` (`Sliders`): the slider record, the bank of four sliders, its latent vector, and the per-slider setter.
- `detection.dfy` (`Detection`): predictions, the score filter, and the two-hand selection.
- `mapping.dfy` (`Mapping`): from a box on the hand canvas to a latent point.
- `assignment.dfy` (`Assignment`): the nearest-pair choice and the sequential writes.
- `render.dfy` (`Render`): rasterisation of the decoder output.
- `tracking.dfy` (`Tracking`): the start/stop/reschedule state machine.

All arithmetic is over Dafny's `real`. `Math.hypot` is replaced by squared distance. `Assignment.SquaredDistanceOrdersAsHypot` proves that this picks the same pair as comparing the distances themselves. The decoder and the hand detector are inputs: a render is reported as the latent vector handed to the decoder, and a detection cycle's predictions arrive with its event.

Three points of the control logic are easy to misread:

- **Tie-break.** The test `d0 < d1 ? 0 : 2` (landing.component.ts:130) is strict, so a hand equidistant from both pairs takes pair B (`Assignment.TieGoesToPairB`, `Assignment.TieExample`).
- **Start/stop.** There is only a toggle. Toggling while idle asks the camera to start; toggling while tracking stops.
- **Failed detection.** `detect(...).then` (landing.component.ts:118) has no rejection handler. A rejected `detect` ends the chain of cycles while `isVideo` stays true, so tracking looks on but is frozen until it is toggled off and on again (`Tracking.FailedCycleFreezesTracking`).

## Model

| member | source | states |
|---|---|---|
| Sliders.Initial | src/app/page/landing/landing.component.ts:44 | the bank starts as four sliders, each at value 0 with range [-3.5, 3.5] |
| Sliders.Values | src/app/page/landing/landing.component.ts:76 | the latent vector has one entry per slider, and entry k is slider k's value |
| Sliders.WithValue | src/app/page/landing/landing.component.ts:69-72 | setting slider k changes only its value; its range and every other slider stay as they were |
| Sliders.WithValueSnapshot | src/app/page/landing/landing.component.ts:69-76 | after setting slider k to v, the latent vector is the old one with entry k replaced by v, and the default ranges are kept |
| Detection.Filter | src/app/page/landing/landing.component.ts:122 | every kept prediction scores at least 0.6 and comes from the input; every input prediction scoring at least 0.6 is kept |
| Detection.FilterSingleton | src/app/page/landing/landing.component.ts:122 | a single prediction is kept exactly when its score is at least 0.6, so the boundary score 0.6 passes |
| Detection.FilterAppend | src/app/page/landing/landing.component.ts:121-122 | filtering a concatenation is the concatenation of the filtered parts, so detector order is kept |
| Detection.FilterEmptyIff | src/app/page/landing/landing.component.ts:121-122 | nothing survives the filter exactly when no prediction reaches 0.6 |
| Detection.Selection | src/app/page/landing/landing.component.ts:121-123 | the hands used are exactly the first min(2, number of qualifying predictions) of the filtered predictions |
| Detection.ScoreThreshold | src/app/page/landing/landing.component.ts:28 | the score threshold is inclusive at 0.6, rejects anything below it, and is monotone: a higher score never fails where a lower one passes |
| Detection.OnlyQualifyingSelected | src/app/page/landing/landing.component.ts:121-123 | when exactly one prediction reaches 0.6, it is the only hand, wherever it stands |
| Detection.LowScoreIrrelevant | src/app/page/landing/landing.component.ts:121-123 | a prediction below 0.6 changes nothing about the selection, wherever it stands |
| Detection.LaterPredictionsIgnored | src/app/page/landing/landing.component.ts:123 | once two predictions have passed the filter, any later predictions leave the selection unchanged |
| Detection.FirstQualifyingLeads | src/app/page/landing/landing.component.ts:121-123 | the first prediction in detector order that reaches 0.6 is the first hand, whatever comes after it |
| Detection.FirstTwoQualifyingSelected | src/app/page/landing/landing.component.ts:121-123 | the hands are exactly the first two qualifying predictions in detector order; there is no re-sorting by score |
| Detection.SelectHands | src/app/page/landing/landing.component.ts:121-123 | a single left-to-right scan, equivalent to the filter and the slice, computes the selection |
| Mapping.AxisToLatent | src/app/page/landing/landing.component.ts:125-126 | the box centre on that axis can be recovered from the latent value, and the canvas centre maps to 0 |
| Mapping.LatentOf | src/app/page/landing/landing.component.ts:124-126 | each latent coordinate encodes the box centre on its own axis |
| Mapping.CentreMapsToOrigin | src/app/page/landing/landing.component.ts:124-126 | a box centred on the canvas maps to latent (0, 0) for every canvas size |
| Mapping.AxisRoundTrip | src/app/page/landing/landing.component.ts:125-126 | the axis mapping is a bijection: mapping a centre and mapping back gives the centre, and the other way round |
| Mapping.AxisMonotone | src/app/page/landing/landing.component.ts:125-126 | a box centre further right (or further down) gives a strictly larger latent coordinate |
| Mapping.AxisReach | src/app/page/landing/landing.component.ts:125-126 | a centre on the canvas maps into [-4.025, 4.025], the edges map to the ends of that range, and 4.025 is beyond the slider bound 3.5 |
| Mapping.AxesIndependent | src/app/page/landing/landing.component.ts:124-126 | the latent x depends only on the box's x and width, and the latent y only on its y and height |
| Assignment.SqDist | src/app/page/landing/landing.component.ts:128-129 | the squared distance is never negative and is zero exactly when the hand's point equals the pair's point |
| Assignment.TargetPair | src/app/page/landing/landing.component.ts:127-130 | the pair chosen is pair A or pair B, no farther than the other pair; pair A is chosen only when strictly nearer |
| Assignment.SquaredDistanceOrdersAsHypot | src/app/page/landing/landing.component.ts:128-130 | for any non-negative distances whose squares are the squared distances, pair A is chosen exactly when its distance is the smaller |
| Assignment.TieGoesToPairB | src/app/page/landing/landing.component.ts:130 | a hand equidistant from both pairs updates pair B |
| Assignment.TieExample | src/app/page/landing/landing.component.ts:130 | with both pairs at the origin, a hand at (1, 1) takes pair B and pair A is untouched |
| Assignment.WritePair | src/app/page/landing/landing.component.ts:131-138 | the claimed pair takes the new point; the other pair, every range and the bank length are unchanged |
| Assignment.AssignHand | src/app/page/landing/landing.component.ts:124-138 | the pair nearest to the hand's latent point takes that point; the other pair's sliders and all ranges are unchanged |
| Assignment.AssignAll | src/app/page/landing/landing.component.ts:123-139 | applying hands in turn keeps four sliders and leaves every slider's range unchanged |
| Assignment.AssignAllAppend | src/app/page/landing/landing.component.ts:123-139 | applying a + b is applying a and then applying b to the bank that a left behind |
| Assignment.AssignDetections | src/app/page/landing/landing.component.ts:121-139 | the assignment step keeps four sliders and every range |
| Assignment.NoQualifyingIsNoOp | src/app/page/landing/landing.component.ts:121-139 | when no prediction reaches 0.6, the bank comes out identical |
| Assignment.LowScoreHasNoEffect | src/app/page/landing/landing.component.ts:121-139 | inserting a prediction below 0.6 anywhere leaves the resulting bank unchanged |
| Assignment.OneHandKeepsOtherPair | src/app/page/landing/landing.component.ts:127-138 | with one qualifying hand, its pair takes its point and the other pair's two sliders stay exactly as they were |
| Assignment.TwoHandsOutcome | src/app/page/landing/landing.component.ts:123-139 | with two hands, the second chooses against the bank after the first write and its pair ends at its point; different pairs keep both points; when both choose the same pair the second wins and the other pair is untouched |
| Assignment.SecondHandSeesFirstWrite | src/app/page/landing/landing.component.ts:127-130 | a concrete bank where the second hand would take pair A against the old values but takes pair B after the first write |
| Assignment.RunAssignment | src/app/page/landing/landing.component.ts:121-139 | a single pass, equivalent to the filter, slice and forEach, updating the bank after each hand, computes the assignment step |
| Render.CellIndexBijective | src/app/page/landing/landing.component.ts:83-85 | every cell index y*28 + x lies in [0, 784), and cells and indices correspond one to one, so each entry is read exactly once |
| Render.Rasterise | src/app/page/landing/landing.component.ts:74-90 | the two loops draw 784 rectangles; cell (x, y) gives a 5 × 5 rectangle at (5x, 5y) with grey level entry[y*28 + x] * 255, unclamped |
| Render.RasterTilesImage | src/app/page/landing/landing.component.ts:83-88 | every pixel of the 140 × 140 image lies in the rectangle of cell (px/5, py/5) and in no other |
| Tracking.Init | src/app/page/landing/landing.component.ts:43-44 | the component starts with default sliders, not tracking, and with no start requests or cycles pending |
| Tracking.Step | src/app/page/landing/landing.component.ts:69-146 | exactly detection results and slider moves render, each render shows the bank as left by that event, a cycle is rescheduled only while tracking, and the camera, toggle and failure events leave the bank alone |
| Tracking.InitSatisfiesInvariant | src/app/page/landing/landing.component.ts:43-44 | the initial state has four sliders with their default ranges |
| Tracking.StepPreservesInvariant | src/app/page/landing/landing.component.ts:92-146 | every event, a rejected detection included, keeps four sliders with their initial ranges |
| Tracking.ToggleWhileTrackingStops | src/app/page/landing/landing.component.ts:109-114 | toggling while tracking sets isVideo to false at once, draws nothing, and leaves the in-flight cycle running |
| Tracking.ToggleWhileIdleNeedsCamera | src/app/page/landing/landing.component.ts:93-108 | toggling while idle starts tracking, and one cycle, exactly when the camera status is true; otherwise tracking stays off |
| Tracking.CycleReschedulesOnlyWhileTracking | src/app/page/landing/landing.component.ts:117-146 | a finished cycle renders the assigned bank and schedules another cycle exactly when isVideo is still true |
| Tracking.StopDuringCycleRendersOnce | src/app/page/landing/landing.component.ts:109-146 | a stop during the only cycle lets it publish exactly one more frame; after that no cycle is in flight |
| Tracking.FailedCycleFreezesTracking | src/app/page/landing/landing.component.ts:117-146 | a rejected detection during the only cycle draws nothing, schedules nothing and leaves no cycle running, while isVideo stays true |
| Tracking.RestartDuringCycleRunsTwoCycles | src/app/page/landing/landing.component.ts:92-146 | stopping and restarting before the in-flight cycle ends leaves two rescheduling cycles side by side |
| Tracking.ManualMoveOverwrittenByCycle | src/app/page/landing/landing.component.ts:69-139 | a hand-set slider is overwritten by a cycle whose hand claims that slider's pair |

## Left out

- Decoder: the model loading (`loadLayersModel`), `decoder.predict` and `arraySync` are outside the model. The decoder's output is a parameter of `Render.Rasterise`, and a render is reported as the latent vector passed to the decoder.
- Decoder output length: `Render.Rasterise` requires exactly 784 values. A shorter output would make the source read `undefined`, which the model does not represent.
- handtrack.js: `load`, `detect`, `startVideo`, `stopVideo` and `renderPredictions` are outside the model. The detector's results and the camera status arrive as events. The configuration passed to the detector (`maxNumBoxes: 2`, `scoreThreshold: 0.7` and the rest) only affects the external detector and is not modelled.
- Class label: the prediction's `class` field is always `'hand'` and plays no part in the logic, so it is not modelled.
- Canvas drawing: the canvas 2D calls and the `rgb(...)` colour string are modelled as a list of rectangles with a real grey level.
- Framework wiring: the Angular decorators, `@ViewChild`, the animations, `Promise`, `setTimeout`, `requestAnimationFrame` and `console.log` are not modelled. A scheduled `runDetection` and its pending `detect` are counted together as one cycle in flight.
- `ngOnInit`: the initial asynchronous load and the first `predict` are not modelled. `Tracking.Init` is the state after loading.
- Floating point: the model uses exact reals. It does not model IEEE-754 rounding in the mapping or in `Math.hypot`, nor NaN.
- Mapping.LatentOf: requires a positive canvas width and height. In the source, a zero-sized hand canvas divides by zero and gives infinite (or NaN) coordinates. Every hand then still goes to pair B, because both distances are Infinity (or NaN) and the strict test fails. The model does not cover that case.
- Errors after the assignment: an exception thrown by `renderPredictions` or `predict` (landing.component.ts:141-142) is not modelled separately. Like a rejected `detect`, it ends the chain while `isVideo` stays true, but the bank already holds the assignment.
- Tracking.Step: a slider event carries a real value. A `MatSliderChange` whose `value` is null is not modelled.
- Render determinism: rendering twice from the same bank gives the same rectangles. This holds by construction, because every member is a pure function, so it has no lemma of its own.
