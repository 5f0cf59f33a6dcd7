/**
  Four property hooks of the checkbox do not do what their documentation and
  the draw pass say they should. This module first exhibits each discrepancy on
  the setters as written (module Checkbox), then gives the setters as evidently
  intended and proves that, with them, every event keeps the layers consistent
  with the style: the colour scheme of the current `checked` state and the
  current stroke width.
*/
module Corrected {
  import opened Geometry
  import opened Layers
  import opened Checkbox
  import opened Traces

  // ---------------------------------------------------------------------------
  // The discrepancies, on the setters as written

  /** Changing `strokeWidth` after a draw pass leaves the ring and tick outlines
      at the old width: the hook writes the ring's border width instead. */
  lemma StrokeWidthSetterLeavesOutlineWidth(w: Widget, v: real)
    requires w.circleLayer.Some? && w.tickLayer.Some? && LineWidthsMatch(w) && v != w.strokeWidth
    ensures var w' := Checkbox.SetStrokeWidth(w, v);
            && w'.circleLayer.value.lineWidth == w.strokeWidth != v
            && w'.tickLayer.value.lineWidth == w.strokeWidth
            && !LineWidthsMatch(w')
  {
  }

  /** Changing `strokeColor` on an unchecked, drawn widget leaves the ring's
      outline in the old colour: the hook writes the border colour instead. */
  lemma StrokeColorSetterLeavesOutlineColor(w: Widget, c: Color, tint: Color)
    requires w.circleLayer.Some? && ShowsScheme(w, tint) && !w.checked && c != w.strokeColor
    ensures var w' := Checkbox.SetStrokeColor(w, c);
            && w'.circleLayer.value.strokeColor == w.strokeColor != c
            && !ShowsScheme(w', tint)
  {
  }

  /** Changing `background` on a checked, drawn widget replaces the tint fill of
      the ring, although the background is the unchecked fill. */
  lemma BackgroundSetterOverwritesCheckedFill(w: Widget, c: Color, tint: Color)
    requires w.circleLayer.Some? && ShowsScheme(w, tint) && w.checked && c != w.background && c != tint
    ensures var w' := Checkbox.SetBackground(w, c);
            && w'.circleLayer.value.fillColor == c
            && !ShowsScheme(w', tint)
  {
  }

  /** Changing `tick` on an unchecked, drawn widget makes the tick visible,
      although the tick is documented as clear while unchecked. */
  lemma TickSetterShowsTickWhileUnchecked(w: Widget, c: Color)
    requires w.tickLayer.Some? && TickHidden(w) && !w.checked && c != w.tick && c != Clear
    ensures var w' := Checkbox.SetTick(w, c);
            && !w'.checked
            && w'.tickLayer.value.strokeColor == c
            && !TickHidden(w')
  {
  }

  // ---------------------------------------------------------------------------
  // The setters as intended

  /** `strokeWidth`: restrokes both existing layers with the new width. */
  function SetStrokeWidth(w: Widget, v: real): (w': Widget)
    ensures StyleOf(w') == StyleOf(w).(strokeWidth := v)
    ensures v == w.strokeWidth ==> w' == w
    ensures v != w.strokeWidth ==> LineWidthsMatch(w')
    ensures w'.retired == w.retired && w'.delegate == w.delegate
    ensures w'.circleLayer.Some? == w.circleLayer.Some? && w'.tickLayer.Some? == w.tickLayer.Some?
    ensures w.circleLayer.Some? ==> AgreeExcept(w.circleLayer.value, w'.circleLayer.value, LineWidth)
    ensures w.tickLayer.Some? ==> AgreeExcept(w.tickLayer.value, w'.tickLayer.value, LineWidth)
  {
    if v != w.strokeWidth then
      w.(strokeWidth := v,
         circleLayer := WriteLineWidth(w.circleLayer, v),
         tickLayer := WriteLineWidth(w.tickLayer, v))
    else w.(strokeWidth := v)
  }

  /** `strokeColor`: restrokes the ring when it currently shows the unchecked scheme. */
  function SetStrokeColor(w: Widget, c: Color): (w': Widget)
    ensures StyleOf(w') == StyleOf(w).(strokeColor := c)
    ensures c == w.strokeColor || w.checked ==> w' == w.(strokeColor := c)
    ensures OnlyRingAttrChanged(w, w', StrokeColor)
    ensures c != w.strokeColor && !w.checked && w.circleLayer.Some? ==> w'.circleLayer.value.strokeColor == c
  {
    if c != w.strokeColor && !w.checked then
      w.(strokeColor := c, circleLayer := WriteStroke(w.circleLayer, c))
    else w.(strokeColor := c)
  }

  /** `background`: refills the ring when it currently shows the unchecked scheme. */
  function SetBackground(w: Widget, c: Color): (w': Widget)
    ensures StyleOf(w') == StyleOf(w).(background := c)
    ensures c == w.background || w.checked ==> w' == w.(background := c)
    ensures OnlyRingAttrChanged(w, w', FillColor)
    ensures c != w.background && !w.checked && w.circleLayer.Some? ==> w'.circleLayer.value.fillColor == c
  {
    if c != w.background && !w.checked then
      w.(background := c, circleLayer := WriteFill(w.circleLayer, c))
    else w.(background := c)
  }

  /** `tick`: recolours the tick only while it is visible, i.e. while checked. */
  function SetTick(w: Widget, c: Color): (w': Widget)
    ensures StyleOf(w') == StyleOf(w).(tick := c)
    ensures c == w.tick || !w.checked ==> w' == w.(tick := c)
    ensures OnlyTickAttrChanged(w, w', StrokeColor)
    ensures c != w.tick && w.checked && w.tickLayer.Some? ==> w'.tickLayer.value.strokeColor == c
  {
    if c != w.tick && w.checked then
      w.(tick := c, tickLayer := WriteStroke(w.tickLayer, c))
    else w.(tick := c)
  }

  /** The widget with the intended setters; `checked`, delegate, draw and tap are unchanged. */
  function Step(w: Widget, e: Event, tint: Color): (r: (Widget, seq<Notification>))
    requires ValidEvent(e)
    ensures StyleOf(r.0) == Assign(StyleOf(w), e)
    ensures r.1 == Traces.Step(w, e, tint).1
  {
    match e
    case StrokeWidthSet(v) => (SetStrokeWidth(w, v), [])
    case StrokeColorSet(c) => (SetStrokeColor(w, c), [])
    case BackgroundSet(c) => (SetBackground(w, c), [])
    case TickSet(c) => (SetTick(w, c), [])
    case _ => Traces.Step(w, e, tint)
  }

  function Run(w: Widget, es: seq<Event>, tint: Color): (r: (Widget, seq<Notification>))
    requires ValidTrace(es)
    ensures w.retired <= r.0.retired
    decreases |es|
  {
    if es == [] then (w, [])
    else
      assert ValidEvent(es[0]);
      var first := Step(w, es[0], tint);
      var rest := Run(first.0, es[1..], tint);
      (rest.0, first.1 + rest.1)
  }

  /** The layers show the scheme of the current style and are stroked with the current width. */
  predicate Consistent(w: Widget, tint: Color)
  {
    ShowsScheme(w, tint) && LineWidthsMatch(w)
  }

  /** With the intended setters every event keeps the widget consistent. */
  lemma StepKeepsConsistent(w: Widget, e: Event, tint: Color)
    requires ValidEvent(e) && Consistent(w, tint)
    ensures Consistent(Step(w, e, tint).0, tint)
  {
  }

  /** Hence, from a fresh widget, every trace ends consistent: exactly one scheme
      is ever shown, and the tick is invisible whenever the box is unchecked. */
  lemma {:induction false} RunKeepsConsistent(w: Widget, es: seq<Event>, tint: Color)
    requires ValidTrace(es) && Consistent(w, tint)
    ensures Consistent(Run(w, es, tint).0, tint)
    ensures !Run(w, es, tint).0.checked ==> TickHidden(Run(w, es, tint).0)
    decreases |es|
  {
    if es != [] {
      ValidTraceTail(es);
      StepKeepsConsistent(w, es[0], tint);
      RunKeepsConsistent(Step(w, es[0], tint).0, es[1..], tint);
    }
  }

  lemma InitTraceConsistent(es: seq<Event>, tint: Color)
    requires ValidTrace(es)
    ensures Consistent(Run(Init(), es, tint).0, tint)
  {
    RunKeepsConsistent(Init(), es, tint);
  }
}
