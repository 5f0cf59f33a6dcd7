/**
  The checkbox widget as written: five style properties whose change hooks
  restyle the existing layers, a draw pass that builds a new ring layer and a new
  tick layer, and a tap handler that only notifies the delegate.

  The ambient tint colour belongs to the host view hierarchy; it is passed to
  every operation that reads it.
*/
module Checkbox {
  import opened Geometry
  import opened Layers

  datatype Observer = Observer(id: nat)
  datatype TouchEvent = TouchEvent(id: nat)

  /** One call of the delegate's `didSelectCheckBox` with the event that triggered it. */
  datatype Notification = Notification(observer: Observer, event: TouchEvent)

  /** The five style properties. */
  datatype Style = Style(strokeWidth: real, strokeColor: Color, background: Color, tick: Color, checked: bool)

  /** The widget state. `circleLayer` and `tickLayer` are the layers of the most
      recent draw pass; `retired` holds the layers of earlier passes, which stay
      attached to the view's layer but are no longer reachable from the widget,
      so no setter changes them again. */
  datatype Widget = Widget(
    strokeWidth: real,
    strokeColor: Color,
    background: Color,
    tick: Color,
    checked: bool,
    circleLayer: Option<ShapeLayer>,
    tickLayer: Option<ShapeLayer>,
    retired: seq<ShapeLayer>,
    delegate: Option<Observer>)

  function StyleOf(w: Widget): Style
  {
    Style(w.strokeWidth, w.strokeColor, w.background, w.tick, w.checked)
  }

  function LayerSeq(o: Option<ShapeLayer>): seq<ShapeLayer>
  {
    match o
    case None => []
    case Some(l) => [l]
  }

  /** The sublayers of the view's layer, bottom to top. */
  function Sublayers(w: Widget): seq<ShapeLayer>
  {
    w.retired + LayerSeq(w.circleLayer) + LayerSeq(w.tickLayer)
  }

  predicate HasLayers(w: Widget)
  {
    w.circleLayer.Some? || w.tickLayer.Some?
  }

  /** A freshly constructed widget: unchecked, stroke width 1, light-gray stroke,
      white background and tick, no layers and no delegate. */
  function Init(): (w: Widget)
    ensures StyleOf(w) == Style(1.0, LightGray, White, White, false)
    ensures !HasLayers(w) && Sublayers(w) == [] && w.delegate.None?
  {
    Widget(1.0, LightGray, White, White, false, None, None, [], None)
  }

  // ---------------------------------------------------------------------------
  // Colour schemes

  /** The colours a layer pair shows in one state of the checkbox. */
  datatype Scheme = Scheme(ringFill: Color, ringStroke: Color, tickStroke: Color, tickFill: Color)

  /** Checked: ring filled and stroked with the tint, tick stroked with the tick
      colour and not filled. Unchecked: ring filled with the background and
      stroked with the stroke colour, tick fully transparent. */
  function SchemeFor(s: Style, tint: Color): Scheme
  {
    if s.checked then Scheme(tint, tint, s.tick, Clear)
    else Scheme(s.background, s.strokeColor, Clear, Clear)
  }

  /** The existing layers show exactly the scheme of the widget's current style. */
  predicate ShowsScheme(w: Widget, tint: Color)
  {
    var s := SchemeFor(StyleOf(w), tint);
    && (w.circleLayer.Some? ==>
          w.circleLayer.value.fillColor == s.ringFill && w.circleLayer.value.strokeColor == s.ringStroke)
    && (w.tickLayer.Some? ==>
          w.tickLayer.value.strokeColor == s.tickStroke && w.tickLayer.value.fillColor == s.tickFill)
  }

  /** The existing layers are stroked with the widget's stroke width. */
  predicate LineWidthsMatch(w: Widget)
  {
    && (w.circleLayer.Some? ==> w.circleLayer.value.lineWidth == w.strokeWidth)
    && (w.tickLayer.Some? ==> w.tickLayer.value.lineWidth == w.strokeWidth)
  }

  /** The tick layer, when present, is invisible. */
  predicate TickHidden(w: Widget)
  {
    w.tickLayer.Some? ==> w.tickLayer.value.strokeColor == Clear && w.tickLayer.value.fillColor == Clear
  }

  // ---------------------------------------------------------------------------
  // Frame conditions

  /** Only attribute `at` of the ring layer may differ; the tick layer, the
      retired layers and the delegate are untouched. */
  predicate OnlyRingAttrChanged(w: Widget, w': Widget, at: Attr)
  {
    && w'.tickLayer == w.tickLayer && w'.retired == w.retired && w'.delegate == w.delegate
    && w'.circleLayer.Some? == w.circleLayer.Some?
    && (w.circleLayer.Some? ==> AgreeExcept(w.circleLayer.value, w'.circleLayer.value, at))
  }

  /** Only attribute `at` of the tick layer may differ. */
  predicate OnlyTickAttrChanged(w: Widget, w': Widget, at: Attr)
  {
    && w'.circleLayer == w.circleLayer && w'.retired == w.retired && w'.delegate == w.delegate
    && w'.tickLayer.Some? == w.tickLayer.Some?
    && (w.tickLayer.Some? ==> AgreeExcept(w.tickLayer.value, w'.tickLayer.value, at))
  }

  /** The attributes no colour change touches. */
  const Shape: set<Attr> := {BorderColor, BorderWidth, LineWidth, StrokeEnd, ShapePath}

  // ---------------------------------------------------------------------------
  // Property setters. Each hook compares the new value with the old one and,
  // when they differ, writes through the optional layer reference.

  /** `strokeWidth`: writes the ring's border width (not its line width). */
  function SetStrokeWidth(w: Widget, v: real): (w': Widget)
    ensures StyleOf(w') == StyleOf(w).(strokeWidth := v)
    ensures v == w.strokeWidth ==> w' == w
    ensures OnlyRingAttrChanged(w, w', BorderWidth)
    ensures v != w.strokeWidth && w.circleLayer.Some? ==> w'.circleLayer.value.borderWidth == v
  {
    if v != w.strokeWidth then w.(strokeWidth := v, circleLayer := WriteBorderWidth(w.circleLayer, v))
    else w.(strokeWidth := v)
  }

  /** `strokeColor`: writes the ring's border colour (not its stroke colour). */
  function SetStrokeColor(w: Widget, c: Color): (w': Widget)
    ensures StyleOf(w') == StyleOf(w).(strokeColor := c)
    ensures c == w.strokeColor ==> w' == w
    ensures OnlyRingAttrChanged(w, w', BorderColor)
    ensures c != w.strokeColor && w.circleLayer.Some? ==> w'.circleLayer.value.borderColor == c
  {
    if c != w.strokeColor then w.(strokeColor := c, circleLayer := WriteBorderColor(w.circleLayer, c))
    else w.(strokeColor := c)
  }

  /** `background`: writes the ring's fill colour, whatever the checked state. */
  function SetBackground(w: Widget, c: Color): (w': Widget)
    ensures StyleOf(w') == StyleOf(w).(background := c)
    ensures c == w.background ==> w' == w
    ensures OnlyRingAttrChanged(w, w', FillColor)
    ensures c != w.background && w.circleLayer.Some? ==> w'.circleLayer.value.fillColor == c
  {
    if c != w.background then w.(background := c, circleLayer := WriteFill(w.circleLayer, c))
    else w.(background := c)
  }

  /** `tick`: writes the tick's stroke colour, whatever the checked state. */
  function SetTick(w: Widget, c: Color): (w': Widget)
    ensures StyleOf(w') == StyleOf(w).(tick := c)
    ensures c == w.tick ==> w' == w
    ensures OnlyTickAttrChanged(w, w', StrokeColor)
    ensures c != w.tick && w.tickLayer.Some? ==> w'.tickLayer.value.strokeColor == c
  {
    if c != w.tick then w.(tick := c, tickLayer := WriteStroke(w.tickLayer, c))
    else w.(tick := c)
  }

  /** `checked`: on a change, repaints fill and stroke of both existing layers
      with the scheme of the new state; nothing else changes. */
  function SetChecked(w: Widget, v: bool, tint: Color): (w': Widget)
    ensures StyleOf(w') == StyleOf(w).(checked := v)
    ensures v == w.checked ==> w' == w
    ensures v != w.checked ==> ShowsScheme(w', tint)
    ensures w'.retired == w.retired && w'.delegate == w.delegate
    ensures w'.circleLayer.Some? == w.circleLayer.Some? && w'.tickLayer.Some? == w.tickLayer.Some?
    ensures w.circleLayer.Some? ==> AgreeOn(w.circleLayer.value, w'.circleLayer.value, Shape)
    ensures w.tickLayer.Some? ==> AgreeOn(w.tickLayer.value, w'.tickLayer.value, Shape)
  {
    if v == w.checked then w.(checked := v)
    else if v then
      w.(checked := v,
         circleLayer := WriteStroke(WriteFill(w.circleLayer, tint), tint),
         tickLayer := WriteFill(WriteStroke(w.tickLayer, w.tick), Clear))
    else
      w.(checked := v,
         circleLayer := WriteStroke(WriteFill(w.circleLayer, w.background), w.strokeColor),
         tickLayer := WriteFill(WriteStroke(w.tickLayer, Clear), Clear))
  }

  // ---------------------------------------------------------------------------
  // Tap handler and draw pass

  /** Tap: notifies the delegate, if any, exactly once with the triggering event;
      the widget itself does not change (in particular `checked` is not flipped). */
  function Tap(w: Widget, event: TouchEvent): (r: (Widget, seq<Notification>))
    ensures r.0 == w
    ensures |r.1| == (if w.delegate.Some? then 1 else 0)
    ensures forall n :: n in r.1 ==> n == Notification(w.delegate.value, event)
  {
    match w.delegate
    case None => (w, [])
    case Some(d) => (w, [Notification(d, event)])
  }

  /** The ring layer of a draw pass. */
  function RingLayer(s: Style, width: real, height: real, tint: Color): ShapeLayer
  {
    var l := NewShapeLayer(RingPath(width, height, s.strokeWidth));
    var l := if s.checked then l.(fillColor := tint, strokeColor := tint)
             else l.(fillColor := s.background, strokeColor := s.strokeColor);
    l.(lineWidth := s.strokeWidth, strokeEnd := 1.0)
  }

  /** The tick layer of a draw pass. */
  function TickLayer(s: Style, width: real, height: real, biggestSide: real): ShapeLayer
  {
    var l := NewShapeLayer(TickPath(TickSquare(width, height, s.strokeWidth, biggestSide)));
    var l := if s.checked then l.(strokeColor := s.tick, fillColor := Clear)
             else l.(strokeColor := Clear, fillColor := Clear);
    l.(lineWidth := s.strokeWidth)
  }

  /** Draw pass over bounds `width` x `height`. `biggestSide` is the side of the
      largest square inscribed in the shorter side (a square root in the source).
      Both new layers are appended to the sublayers, ring first; the previous pair
      stays attached, frozen. */
  function Draw(w: Widget, width: real, height: real, biggestSide: real, tint: Color): (w': Widget)
    requires ValidBounds(width, height)
    requires IsInscribedSquareSide(biggestSide, ShortestSide(width, height))
    ensures StyleOf(w') == StyleOf(w) && w'.delegate == w.delegate
    ensures w'.circleLayer.Some? && w'.tickLayer.Some?
    ensures Sublayers(w') == Sublayers(w) + [w'.circleLayer.value, w'.tickLayer.value]
    ensures ShowsScheme(w', tint) && LineWidthsMatch(w')
    ensures !w.checked ==> TickHidden(w')
    ensures w'.circleLayer.value.path == RingPath(width, height, w.strokeWidth)
    ensures w'.circleLayer.value.strokeEnd == 1.0
    ensures w'.circleLayer.value.borderWidth == 0.0 && w'.circleLayer.value.borderColor == Black
    ensures w'.tickLayer.value.borderWidth == 0.0 && w'.tickLayer.value.borderColor == Black
    ensures w'.tickLayer.value.path == TickPath(TickSquare(width, height, w.strokeWidth, biggestSide))
  {
    w.(retired := Sublayers(w),
       circleLayer := Some(RingLayer(StyleOf(w), width, height, tint)),
       tickLayer := Some(TickLayer(StyleOf(w), width, height, biggestSide)))
  }

  // ---------------------------------------------------------------------------
  // Properties of the checked toggle

  /** Checking then unchecking a widget restores the unchecked scheme on every
      existing layer; if the layers already showed it, the widget is restored exactly. */
  lemma ToggleTwiceRestoresUnchecked(w: Widget, tint: Color)
    requires !w.checked
    ensures var w2 := SetChecked(SetChecked(w, true, tint), false, tint);
            && StyleOf(w2) == StyleOf(w)
            && ShowsScheme(w2, tint)
            && (w2.circleLayer.Some? ==>
                  w2.circleLayer.value.fillColor == w.background && w2.circleLayer.value.strokeColor == w.strokeColor)
            && TickHidden(w2)
            && (ShowsScheme(w, tint) ==> w2 == w)
  {
  }

  /** The checked setter paints exactly the colours a draw pass would paint in the new state. */
  lemma CheckedSetterAgreesWithDraw(w: Widget, v: bool, width: real, height: real, biggestSide: real, tint: Color)
    requires v != w.checked && w.circleLayer.Some? && w.tickLayer.Some?
    requires ValidBounds(width, height)
    requires IsInscribedSquareSide(biggestSide, ShortestSide(width, height))
    ensures var w1 := SetChecked(w, v, tint);
            var d := Draw(w1, width, height, biggestSide, tint);
            && w1.circleLayer.value.fillColor == d.circleLayer.value.fillColor
            && w1.circleLayer.value.strokeColor == d.circleLayer.value.strokeColor
            && w1.tickLayer.value.strokeColor == d.tickLayer.value.strokeColor
            && w1.tickLayer.value.fillColor == d.tickLayer.value.fillColor
  {
  }
}
