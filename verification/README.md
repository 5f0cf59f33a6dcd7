# UICheckBox in Dafny

This project models `UICheckBox`, a UIKit control that draws a circular checkbox (a "ring" shape layer)
with a checkmark (a "tick" shape layer). The model covers the following:

- **Style state machine.** The widget holds five style properties: `strokeWidth`, `strokeColor`,
  `background`, `tick` and `checked`. Each property has a change hook. When the new value differs from the
  old one, the hook writes one or more attributes of the existing layers through optional chaining. Before
  the first draw pass there are no layers, so the hooks only store the value.
- **Draw pass.** Each draw pass builds a new ring and a new tick from the bounds `W x H` and the stroke
  width, colours both from `checked`, and appends them to the view's sublayers, ring first. The earlier
  layers stay attached. Only the newest pair can still be reached from the widget.
- **Tap handler.** A tap notifies the delegate, if one is set, and changes nothing else.

Modules:

- `Geometry` (`geometry.dfy`): points, paths, the ring circle, the tick square and the tick polyline, in
  real arithmetic.
- `Layers` (`layers.dfy`): opaque colours with a distinguished `Clear`, a shape layer as a record of
  attributes, and the optional-chaining writes `layer?.attr = v`.
- `Checkbox` (`checkbox.dfy`): the widget record, the five setters exactly as written, `Draw` and `Tap`.
  A fresh layer starts with the framework's defaults: black fill, no stroke (modelled as `Clear`), black
  border of width 0, line width 1. The layers of earlier passes are kept in `retired`.
- `Traces` (`traces.dfy`): an event type, `Step` and `Run` over event traces, and the properties that hold
  over whole traces. It also says exactly which events keep the colour scheme in step with `checked`.
- `Corrected` (`corrected.dfy`): the four setters that disagree with their documentation (see Findings),
  each shown failing, then the intended setters with the consistency invariant proved over every trace.
  The main model (`Checkbox`, `Traces`) keeps the code as written.

Some inputs come from outside the widget:

- The ambient `tintColor` is a parameter of every operation that reads it. Over a trace it is held
  constant.
- The square root at line 157 is an input `biggestSide`. The only facts used about it are
  `biggestSide >= 0` and `biggestSide * biggestSide == m * m / 2`, where `m` is the shorter side.
- Draw passes and taps are events that the host delivers.

Behaviour of the code worth noting:

- A draw pass adds two new layers and does not remove the previous ones. The older layers stay
  attached with their old geometry and colours (lines 153, 203).
- A tap leaves `checked` unchanged. It only notifies the delegate (lines 108-112).
- The `strokeWidth` and `strokeColor` hooks write the ring's border width and border colour (lines 26, 35).
- For a 100 x 100 widget with stroke width 1, the formula at lines 157-160 gives a tick square side of about 54.57.
  `Geometry.HundredPointWidget` bounds it between 54.56 and 54.58.

## Model

| member | source | states |
|---|---|---|
| Geometry.ShortestSide | UICheckBox.swift:120 | the result is the minimum of width and height: it is one of them and no larger than either |
| Geometry.RingPath | UICheckBox.swift:122-128 | the ring is a full circle centred at (W/2, H/2) whose radius plus the stroke width is half the shorter side |
| Geometry.TickSquare | UICheckBox.swift:156-163 | the tick square is a square centred in the bounds whose side plus twice the stroke width is 80% of the inscribed-square side |
| Geometry.TickPath | UICheckBox.swift:165-181 | the tick is an open 3-point polyline: left edge 60% down, bottom edge 40% across, top-right corner |
| Geometry.RingFitsBounds | UICheckBox.swift:119-128 | with non-negative stroke and radius, the stroked ring lies inside the bounds |
| Geometry.InscribedSquareBounds | UICheckBox.swift:156-157 | the inscribed-square side lies between 0.7 and 0.71 of the shorter side |
| Geometry.HalfSquaredSideBelowSquaredRadius | UICheckBox.swift:155-160 | the tick square's half-diagonal never exceeds the ring radius: side² <= 2·radius² |
| Geometry.TickInsideRing | UICheckBox.swift:155-181 | when the stroke is non-negative and the tick square is not degenerate, every tick point lies inside the ring's circle |
| Geometry.HundredPointWidget | UICheckBox.swift:120-163 | for 100 x 100 with stroke 1: ring centre (50, 50), radius 49, tick side strictly between 54.56 and 54.58 |
| Layers.NewShapeLayer | UICheckBox.swift:131 | a new shape layer carries the given path, no stroke, and a black border of width zero |
| Layers.WriteFill | UICheckBox.swift:44 | `layer?.fillColor = c`: an existing layer gets fill c and keeps every other attribute; a missing layer stays missing |
| Layers.WriteStroke | UICheckBox.swift:54 | `layer?.strokeColor = c`: an existing layer gets stroke colour c and keeps every other attribute; a missing layer stays missing |
| Layers.WriteBorderColor | UICheckBox.swift:35 | `layer?.borderColor = c`: an existing layer gets border colour c and keeps every other attribute; a missing layer stays missing |
| Layers.WriteBorderWidth | UICheckBox.swift:26 | `layer?.borderWidth = v`: an existing layer gets border width v and keeps every other attribute; a missing layer stays missing |
| Layers.WriteLineWidth | UICheckBox.swift:147 | `layer?.lineWidth = v`: an existing layer gets line width v and keeps every other attribute; a missing layer stays missing |
| Checkbox.Init | UICheckBox.swift:18-85 | a new widget is unchecked with stroke width 1, light-gray stroke, white background and tick, no layers, no sublayers and no delegate |
| Checkbox.SetStrokeWidth | UICheckBox.swift:23-29 | stores the width; on a change, only the ring's border width changes, to the new width; the same value changes nothing |
| Checkbox.SetStrokeColor | UICheckBox.swift:31-38 | stores the colour; on a change, only the ring's border colour changes; the same value changes nothing |
| Checkbox.SetBackground | UICheckBox.swift:40-47 | stores the colour; on a change, only the ring's fill changes, whether or not the box is checked |
| Checkbox.SetTick | UICheckBox.swift:49-57 | stores the colour; on a change, only the tick's stroke colour changes, whether or not the box is checked |
| Checkbox.SetChecked | UICheckBox.swift:59-78 | on a change, both layers show the scheme of the new state and no geometry or width changes; the same value changes nothing |
| Checkbox.Tap | UICheckBox.swift:107-112 | the widget is unchanged; one notification carrying the event goes to the delegate if set, none otherwise |
| Checkbox.Draw | UICheckBox.swift:114-204 | the style is unchanged; the sublayers grow by exactly the new ring then the new tick; both show the current scheme and stroke width; the tick is clear when unchecked; the paths are the ring and tick geometry; the ring is fully stroked; both new layers keep the fresh black border of width zero |
| Checkbox.ToggleTwiceRestoresUnchecked | UICheckBox.swift:63-75 | checking then unchecking shows the unchecked scheme (background fill, stroke-colour outline, clear tick) and restores a widget that already showed it exactly |
| Checkbox.CheckedSetterAgreesWithDraw | UICheckBox.swift:65-75 | the colours the checked hook paints equal those a draw pass in the new state paints (lines 136-144, 189-197) |
| Traces.Step | UICheckBox.swift:23-112 | only a tap produces notifications, and only a delegate assignment changes the delegate |
| Traces.Run | UICheckBox.swift:153-203 | layers of earlier draw passes stay attached and the sublayer count never decreases; a trace sends at most one notification per tap |
| Traces.StepAddsTwoLayersPerDraw | UICheckBox.swift:153-203 | a draw pass adds exactly two sublayers, and every other event leaves the count unchanged |
| Traces.SettingCurrentValueIsNoOp | UICheckBox.swift:23-78 | assigning any property its current value leaves the widget, and so every layer attribute, unchanged |
| Traces.SettersWithoutLayers | UICheckBox.swift:23-85 | before any layer exists, a setter stores its value, creates no layer and changes nothing else |
| Traces.SchemeKeptExactlyWhen | UICheckBox.swift:23-78 | from layers showing the scheme, a step keeps it if and only if it is not a background change while checked (to a colour other than the tint), a stroke-colour change while unchecked, or a tick change to a non-clear colour while unchecked |
| Traces.LineWidthKeptExactlyWhen | UICheckBox.swift:23-29 | from layers stroked at the stroke width, a step keeps them so if and only if it is not a change of strokeWidth |
| Traces.WellFormedSublayersAlternate | UICheckBox.swift:131-203 | the sublayers of a well-formed widget alternate ring, tick, and the last two are the layers the widget references |
| Traces.StepKeepsWellFormed | UICheckBox.swift:131-203 | every event keeps the layer pair whole and the sublayers in ring/tick order |
| Traces.RunKeepsWellFormed | UICheckBox.swift:131-203 | every trace keeps the layer pair whole and the sublayers in ring/tick order |
| Traces.RunAddsTwoLayersPerDraw | UICheckBox.swift:153-203 | after a trace the sublayer count has grown by exactly twice the number of draw passes |
| Traces.InitTraceLayerTree | UICheckBox.swift:82-203 | from a fresh widget, the sublayers are one ring/tick pair per draw pass, and layers exist if and only if a draw pass happened |
| Traces.NoRedrawNoLayers | UICheckBox.swift:23-85 | a trace without draw passes leaves a layerless widget layerless with its sublayers unchanged |
| Traces.TapsNotifyDelegate | UICheckBox.swift:108-112 | with the delegate fixed and set, the i-th notification goes to it with the touch event of the i-th tap, one per tap; without a delegate there are none |
| Traces.TapsLeaveWidgetAlone | UICheckBox.swift:108-112 | a trace of taps never changes checked, a style field or a layer |
| Traces.RunAppend | UICheckBox.swift:23-204 | running a + b equals running a then b, with the notifications concatenated |
| Traces.EndingWithRedrawIsConsistent | UICheckBox.swift:136-200 | after any trace ending with a draw pass, the layers show the current scheme and stroke width, and the tick is clear when unchecked |
| Traces.EndingWithToggleShowsScheme | UICheckBox.swift:63-75 | after any trace ending with a change of checked, the layers show the scheme of the new state |
| Corrected.StrokeWidthSetterLeavesOutlineWidth | UICheckBox.swift:23-29 | after a width change, both outlines keep the old line width |
| Corrected.StrokeColorSetterLeavesOutlineColor | UICheckBox.swift:31-38 | after a colour change while unchecked, the ring outline keeps the old colour and the scheme is broken |
| Corrected.BackgroundSetterOverwritesCheckedFill | UICheckBox.swift:40-47 | after a background change while checked, the ring fill is the background, not the tint |
| Corrected.TickSetterShowsTickWhileUnchecked | UICheckBox.swift:49-57 | after a tick change while unchecked, the tick is visible although the box is unchecked |
| Corrected.SetStrokeWidth | UICheckBox.swift:23-29 | on a change, both layers are stroked at the new width and no other attribute changes |
| Corrected.SetStrokeColor | UICheckBox.swift:31-38 | the ring stroke takes the new colour only while unchecked; nothing else changes |
| Corrected.SetBackground | UICheckBox.swift:40-47 | the ring fill takes the new colour only while unchecked; nothing else changes |
| Corrected.SetTick | UICheckBox.swift:49-57 | the tick stroke takes the new colour only while checked; nothing else changes |
| Corrected.Step | UICheckBox.swift:23-112 | each event stores exactly the value it assigns and sends the notifications of the widget as written |
| Corrected.Run | UICheckBox.swift:153-203 | with the intended setters too, layers of earlier draw passes stay attached |
| Corrected.StepKeepsConsistent | UICheckBox.swift:23-78 | with the intended setters, every event keeps the layers showing the current scheme and stroke width |
| Corrected.RunKeepsConsistent | UICheckBox.swift:23-204 | with the intended setters, every trace keeps the widget consistent, and the tick is clear whenever unchecked |
| Corrected.InitTraceConsistent | UICheckBox.swift:82-204 | with the intended setters, every trace from a fresh widget ends consistent |

## Findings

| source | as written | input that shows it | evidently intended | confidence | as-written member | corrected member |
|---|---|---|---|---|---|---|
| UICheckBox.swift:26 | the `strokeWidth` hook writes the ring's `borderWidth` | a drawn widget with stroke width 1 is set to width 3: both outlines stay 1 wide until the next draw | restroke both layers (`lineWidth`), as the draw pass does at lines 147 and 200 | medium, not executed | Corrected.StrokeWidthSetterLeavesOutlineWidth | Corrected.SetStrokeWidth |
| UICheckBox.swift:35 | the `strokeColor` hook writes the ring's `borderColor` | a drawn, unchecked widget is set from light gray to black: the ring outline stays light gray | restroke the ring (`strokeColor`) while unchecked, as lines 72 and 143 do | medium, not executed | Corrected.StrokeColorSetterLeavesOutlineColor | Corrected.SetStrokeColor |
| UICheckBox.swift:44 | the `background` hook refills the ring even while checked | a drawn, checked widget with tint blue is given background red: the ring fill turns red | refill only while unchecked (the property is documented under "Unchecked properties") | medium, not executed | Corrected.BackgroundSetterOverwritesCheckedFill | Corrected.SetBackground |
| UICheckBox.swift:54 | the `tick` hook restrokes the tick even while unchecked | a drawn, unchecked widget is given tick colour red: a red tick shows on an unchecked box | recolour only while checked (line 50: the tick is clear when unchecked) | high, not executed | Corrected.TickSetterShowsTickWhileUnchecked | Corrected.SetTick |

## Left out

- UIKit and Core Animation rendering, `UIBezierPath`/`CGPath` construction and `UIColor` to `CGColor` conversion are foreign library calls. Paths are abstract `Circle` and `Polyline` values and colours are opaque.
- `CGFloat` floating point, `sqrt` and `pow` are not modelled. Geometry uses real numbers and takes the square root as an input characterised by its square. Comparisons involving NaN are not modelled.
- The initialisers (lines 89-99) and target-action registration (lines 103-105) are framework plumbing. Only the default property values are modelled. Setting the view's own `backgroundColor` to clear is left out.
- `layer.frame` (line 120) and `frame` (line 163) are taken to be the same `W x H`.
- The host decides when to redraw, and `tintColor` is inherited from the view hierarchy. Redraws are events and the tint is a parameter.
- Corrected.RunKeepsConsistent: holds for a tint fixed over the whole trace. A change of the inherited `tintColor` between events is not modelled; it would leave a checked ring painted in the old tint until the next draw pass or toggle. The same holds for the other trace lemmas.
- The unused `rect` argument of `drawRect` and the `sender` argument of the tap handler are left out. The sender argument of the delegate call is always the widget itself, so a notification records only the observer and the event.
- Running the delegate's own code is left out, because the delegate is external. A notification records the call, not its effects.
