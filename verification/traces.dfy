/**
  The widget driven by a sequence of events: property assignments, delegate
  changes, draw passes requested by the host, and taps. `Run` folds `Step` over
  a trace; the lemmas state what holds after any trace and exactly which events
  keep the colour scheme in step with `checked`.
*/
module Traces {
  import opened Geometry
  import opened Layers
  import opened Checkbox

  datatype Event =
    | StrokeWidthSet(width: real)
    | StrokeColorSet(color: Color)
    | BackgroundSet(color: Color)
    | TickSet(color: Color)
    | CheckedSet(on: bool)
    | DelegateSet(observer: Option<Observer>)
    | Redraw(boundsWidth: real, boundsHeight: real, biggestSide: real)
    | Tapped(touch: TouchEvent)

  /** The host only requests draw passes over real bounds, with the exact inscribed-square side. */
  predicate ValidEvent(e: Event)
  {
    e.Redraw? ==>
      ValidBounds(e.boundsWidth, e.boundsHeight) &&
      IsInscribedSquareSide(e.biggestSide, ShortestSide(e.boundsWidth, e.boundsHeight))
  }

  predicate ValidTrace(es: seq<Event>)
  {
    forall i :: 0 <= i < |es| ==> ValidEvent(es[i])
  }

  predicate IsSetter(e: Event)
  {
    e.StrokeWidthSet? || e.StrokeColorSet? || e.BackgroundSet? || e.TickSet? || e.CheckedSet?
  }

  /** The style after storing the value a setter event assigns. */
  function Assign(s: Style, e: Event): Style
  {
    match e
    case StrokeWidthSet(v) => s.(strokeWidth := v)
    case StrokeColorSet(c) => s.(strokeColor := c)
    case BackgroundSet(c) => s.(background := c)
    case TickSet(c) => s.(tick := c)
    case CheckedSet(b) => s.(checked := b)
    case _ => s
  }

  function WithStyle(w: Widget, s: Style): Widget
  {
    w.(strokeWidth := s.strokeWidth, strokeColor := s.strokeColor, background := s.background,
       tick := s.tick, checked := s.checked)
  }

  function Step(w: Widget, e: Event, tint: Color): (r: (Widget, seq<Notification>))
    requires ValidEvent(e)
    ensures !e.Tapped? ==> r.1 == []
    ensures !e.DelegateSet? ==> r.0.delegate == w.delegate
  {
    match e
    case StrokeWidthSet(v) => (SetStrokeWidth(w, v), [])
    case StrokeColorSet(c) => (SetStrokeColor(w, c), [])
    case BackgroundSet(c) => (SetBackground(w, c), [])
    case TickSet(c) => (SetTick(w, c), [])
    case CheckedSet(b) => (SetChecked(w, b, tint), [])
    case DelegateSet(d) => (w.(delegate := d), [])
    case Redraw(width, height, side) => (Draw(w, width, height, side, tint), [])
    case Tapped(t) => Tap(w, t)
  }

  function Draws(es: seq<Event>): nat
  {
    if es == [] then 0 else (if es[0].Redraw? then 1 else 0) + Draws(es[1..])
  }

  function Taps(es: seq<Event>): nat
  {
    if es == [] then 0 else (if es[0].Tapped? then 1 else 0) + Taps(es[1..])
  }

  /** The touch events of a trace's taps, in order. */
  function Touches(es: seq<Event>): (ts: seq<TouchEvent>)
    ensures |ts| == Taps(es)
  {
    if es == [] then [] else (if es[0].Tapped? then [es[0].touch] else []) + Touches(es[1..])
  }

  /** Runs a trace. Layers are never detached, and at most one notification is sent per tap. */
  function Run(w: Widget, es: seq<Event>, tint: Color): (r: (Widget, seq<Notification>))
    requires ValidTrace(es)
    ensures w.retired <= r.0.retired
    ensures |Sublayers(w)| <= |Sublayers(r.0)|
    ensures |r.1| <= Taps(es)
    decreases |es|
  {
    if es == [] then (w, [])
    else
      assert ValidEvent(es[0]);
      var first := Step(w, es[0], tint);
      StepAddsTwoLayersPerDraw(w, es[0], tint);
      var rest := Run(first.0, es[1..], tint);
      (rest.0, first.1 + rest.1)
  }

  // ---------------------------------------------------------------------------
  // Single steps

  /** A draw pass adds two sublayers; no other event adds or removes one. */
  lemma StepAddsTwoLayersPerDraw(w: Widget, e: Event, tint: Color)
    requires ValidEvent(e)
    ensures |Sublayers(Step(w, e, tint).0)| == |Sublayers(w)| + (if e.Redraw? then 2 else 0)
  {
  }

  /** Assigning a property its current value changes nothing at all. */
  lemma SettingCurrentValueIsNoOp(w: Widget, e: Event, tint: Color)
    requires IsSetter(e) && Assign(StyleOf(w), e) == StyleOf(w)
    ensures Step(w, e, tint) == (w, [])
  {
  }

  /** Before the first draw pass, a setter only stores its value: no layer appears
      and nothing else changes. */
  lemma SettersWithoutLayers(w: Widget, e: Event, tint: Color)
    requires IsSetter(e) && !HasLayers(w)
    ensures Step(w, e, tint).0 == WithStyle(w, Assign(StyleOf(w), e))
    ensures !HasLayers(Step(w, e, tint).0)
  {
  }

  /** Which events keep an existing layer pair showing the scheme of the current style. */
  predicate KeepsScheme(w: Widget, e: Event, tint: Color)
  {
    match e
    case BackgroundSet(c) => !w.checked || c == w.background || c == tint
    case StrokeColorSet(c) => w.checked || c == w.strokeColor
    case TickSet(c) => w.checked || c == w.tick || c == Clear
    case _ => true
  }

  /** From a widget whose layers show its scheme, a step still shows the scheme
      exactly when `KeepsScheme` holds. So the background setter breaks the scheme
      while checked, and the stroke-colour and tick setters break it while unchecked. */
  lemma SchemeKeptExactlyWhen(w: Widget, e: Event, tint: Color)
    requires ValidEvent(e)
    requires w.circleLayer.Some? && w.tickLayer.Some? && ShowsScheme(w, tint)
    ensures ShowsScheme(Step(w, e, tint).0, tint) <==> KeepsScheme(w, e, tint)
  {
  }

  /** From a widget whose layers are stroked with its stroke width, a step keeps
      them so exactly when it is not a change of `strokeWidth`: that setter writes
      the border width and leaves the line width stale until the next draw pass. */
  lemma LineWidthKeptExactlyWhen(w: Widget, e: Event, tint: Color)
    requires ValidEvent(e)
    requires w.circleLayer.Some? && LineWidthsMatch(w)
    ensures LineWidthsMatch(Step(w, e, tint).0) <==> !(e.StrokeWidthSet? && e.width != w.strokeWidth)
  {
  }

  // ---------------------------------------------------------------------------
  // Shape of the layer tree

  /** Ring, tick, ring, tick, ...: an even number of layers whose even positions are rings. */
  predicate Alternates(ls: seq<ShapeLayer>)
  {
    |ls| % 2 == 0 && forall i :: 0 <= i < |ls| ==> (ls[i].path.Circle? <==> i % 2 == 0)
  }

  /** The current pair exists as a whole or not at all, and each layer of the tree
      sits in its ring/tick position. */
  predicate WellFormed(w: Widget)
  {
    && (w.circleLayer.Some? <==> w.tickLayer.Some?)
    && (w.circleLayer.Some? ==> w.circleLayer.value.path.Circle? && w.tickLayer.value.path.Polyline?)
    && Alternates(w.retired)
    && (|w.retired| > 0 ==> w.circleLayer.Some?)
  }

  lemma WellFormedSublayersAlternate(w: Widget)
    requires WellFormed(w)
    ensures Alternates(Sublayers(w))
    ensures HasLayers(w) ==>
              var s := Sublayers(w);
              |s| >= 2 && s[|s| - 2] == w.circleLayer.value && s[|s| - 1] == w.tickLayer.value
  {
  }

  lemma StepKeepsWellFormed(w: Widget, e: Event, tint: Color)
    requires ValidEvent(e) && WellFormed(w)
    ensures WellFormed(Step(w, e, tint).0)
  {
  }

  lemma {:induction false} RunKeepsWellFormed(w: Widget, es: seq<Event>, tint: Color)
    requires ValidTrace(es) && WellFormed(w)
    ensures WellFormed(Run(w, es, tint).0)
    decreases |es|
  {
    if es != [] {
      assert ValidEvent(es[0]);
      StepKeepsWellFormed(w, es[0], tint);
      RunKeepsWellFormed(Step(w, es[0], tint).0, es[1..], tint);
    }
  }

  /** Every draw pass adds exactly two sublayers and no event removes one. */
  lemma {:induction false} RunAddsTwoLayersPerDraw(w: Widget, es: seq<Event>, tint: Color)
    requires ValidTrace(es)
    ensures |Sublayers(Run(w, es, tint).0)| == |Sublayers(w)| + 2 * Draws(es)
    decreases |es|
  {
    if es != [] {
      RunUnfold(w, es, tint);
      var w1 := Step(w, es[0], tint).0;
      StepAddsTwoLayersPerDraw(w, es[0], tint);
      RunAddsTwoLayersPerDraw(w1, es[1..], tint);
    }
  }

  /** After any trace from a fresh widget, the sublayers are ring/tick pairs, one
      per draw pass, and the widget's layer references point at the newest pair. */
  lemma InitTraceLayerTree(es: seq<Event>, tint: Color)
    requires ValidTrace(es)
    ensures var w := Run(Init(), es, tint).0;
            && Alternates(Sublayers(w))
            && |Sublayers(w)| == 2 * Draws(es)
            && (Draws(es) > 0 <==> HasLayers(w))
  {
    var w := Run(Init(), es, tint).0;
    RunKeepsWellFormed(Init(), es, tint);
    RunAddsTwoLayersPerDraw(Init(), es, tint);
    WellFormedSublayersAlternate(w);
    if Draws(es) > 0 {
      assert |Sublayers(w)| > 0;
    }
  }

  /** A trace without draw passes leaves a layerless widget layerless. */
  lemma {:induction false} NoRedrawNoLayers(w: Widget, es: seq<Event>, tint: Color)
    requires ValidTrace(es) && Draws(es) == 0 && !HasLayers(w)
    ensures !HasLayers(Run(w, es, tint).0)
    ensures Run(w, es, tint).0.retired == w.retired
    decreases |es|
  {
    if es != [] {
      assert ValidEvent(es[0]);
      assert !es[0].Redraw?;
      NoRedrawNoLayers(Step(w, es[0], tint).0, es[1..], tint);
    }
  }

  // ---------------------------------------------------------------------------
  // Taps

  predicate NoDelegateChange(es: seq<Event>)
  {
    forall i :: 0 <= i < |es| ==> !es[i].DelegateSet?
  }

  /** With the delegate fixed, the i-th notification carries the i-th tap's touch
      event to the delegate, and without a delegate no notification is sent. */
  lemma {:induction false} TapsNotifyDelegate(w: Widget, es: seq<Event>, tint: Color)
    requires ValidTrace(es) && NoDelegateChange(es)
    ensures var notes := Run(w, es, tint).1;
            && |notes| == (if w.delegate.Some? then Taps(es) else 0)
            && forall i :: 0 <= i < |notes| ==> notes[i] == Notification(w.delegate.value, Touches(es)[i])
    decreases |es|
  {
    if es != [] {
      RunUnfold(w, es, tint);
      assert !es[0].DelegateSet?;
      var first := Step(w, es[0], tint);
      assert first.0.delegate == w.delegate;
      assert NoDelegateChange(es[1..]) by {
        forall i | 0 <= i < |es[1..]| ensures !es[1..][i].DelegateSet? {
          assert es[1..][i] == es[i + 1];
        }
      }
      TapsNotifyDelegate(first.0, es[1..], tint);
      var rest := Run(first.0, es[1..], tint);
      var head: seq<TouchEvent> := if es[0].Tapped? then [es[0].touch] else [];
      assert Touches(es) == head + Touches(es[1..]);
      if w.delegate.Some? {
        assert first.1 == seq(|head|, i requires 0 <= i < |head| => Notification(w.delegate.value, head[i]));
      }
    }
  }

  predicate OnlyTaps(es: seq<Event>)
  {
    forall i :: 0 <= i < |es| ==> es[i].Tapped?
  }

  /** Taps alone never change the widget: not `checked`, not a style field, not a layer. */
  lemma {:induction false} TapsLeaveWidgetAlone(w: Widget, es: seq<Event>, tint: Color)
    requires ValidTrace(es) && OnlyTaps(es)
    ensures Run(w, es, tint).0 == w
    decreases |es|
  {
    if es != [] {
      assert es[0].Tapped?;
      assert OnlyTaps(es[1..]) by {
        forall i | 0 <= i < |es[1..]| ensures es[1..][i].Tapped? {
          assert es[1..][i] == es[i + 1];
        }
      }
      TapsLeaveWidgetAlone(w, es[1..], tint);
    }
  }

  // ---------------------------------------------------------------------------
  // Composition

  lemma ValidTraceConcat(a: seq<Event>, b: seq<Event>)
    requires ValidTrace(a) && ValidTrace(b)
    ensures ValidTrace(a + b)
  {
  }

  lemma ValidTraceTail(a: seq<Event>)
    requires ValidTrace(a) && a != []
    ensures ValidEvent(a[0]) && ValidTrace(a[1..])
  {
  }

  lemma RunUnfold(w: Widget, es: seq<Event>, tint: Color)
    requires ValidTrace(es) && es != []
    ensures ValidEvent(es[0]) && ValidTrace(es[1..])
    ensures var first := Step(w, es[0], tint);
            var rest := Run(first.0, es[1..], tint);
            Run(w, es, tint) == (rest.0, first.1 + rest.1)
  {
  }

  lemma ConcatAssociative<T>(x: seq<T>, y: seq<T>, z: seq<T>)
    ensures x + (y + z) == (x + y) + z
  {
  }

  lemma RunUnfoldAppend(w: Widget, a: seq<Event>, b: seq<Event>, tint: Color)
    requires ValidTrace(a) && ValidTrace(b) && a != []
    ensures ValidEvent(a[0]) && ValidTrace(a[1..] + b) && ValidTrace(a + b)
    ensures var first := Step(w, a[0], tint);
            var rest := Run(first.0, a[1..] + b, tint);
            Run(w, a + b, tint) == (rest.0, first.1 + rest.1)
  {
    ValidTraceConcat(a, b);
    assert (a + b)[0] == a[0] && (a + b)[1..] == a[1..] + b;
    RunUnfold(w, a + b, tint);
  }

  /** Running `a` then `b` is running `a + b`: the widget ends the same and the
      notifications are those of `a` followed by those of `b`. */
  lemma {:induction false} RunAppend(w: Widget, a: seq<Event>, b: seq<Event>, tint: Color)
    requires ValidTrace(a) && ValidTrace(b)
    ensures ValidTrace(a + b)
    ensures Run(w, a + b, tint).0 == Run(Run(w, a, tint).0, b, tint).0
    ensures Run(w, a + b, tint).1 == Run(w, a, tint).1 + Run(Run(w, a, tint).0, b, tint).1
    decreases |a|
  {
    ValidTraceConcat(a, b);
    if a == [] {
      assert a + b == b;
    } else {
      var s := Step(w, a[0], tint);
      var r := Run(s.0, a[1..], tint);
      var q := Run(r.0, b, tint);
      assert Run(w, a, tint) == (r.0, s.1 + r.1) by {
        RunUnfold(w, a, tint);
      }
      assert Run(s.0, a[1..] + b, tint) == (q.0, r.1 + q.1) by {
        ValidTraceTail(a);
        RunAppend(s.0, a[1..], b, tint);
      }
      RunUnfoldAppend(w, a, b, tint);
      ConcatAssociative(s.1, r.1, q.1);
    }
  }

  /** Whatever happened before, a trace that ends with a draw pass leaves the
      newest layers showing the scheme of the current style, stroked with the
      current stroke width, with the tick invisible when unchecked. */
  lemma EndingWithRedrawIsConsistent(w: Widget, es: seq<Event>, e: Event, tint: Color)
    requires ValidTrace(es) && e.Redraw? && ValidEvent(e)
    ensures ValidTrace(es + [e])
    ensures var w' := Run(w, es + [e], tint).0;
            ShowsScheme(w', tint) && LineWidthsMatch(w') && (!w'.checked ==> TickHidden(w'))
  {
    RunAppend(w, es, [e], tint);
    var w1 := Run(w, es, tint).0;
    assert [e][1..] == [];
  }

  /** Likewise for a trace that ends by changing `checked`. */
  lemma EndingWithToggleShowsScheme(w: Widget, es: seq<Event>, on: bool, tint: Color)
    requires ValidTrace(es)
    requires Run(w, es, tint).0.checked != on
    ensures ValidTrace(es + [CheckedSet(on)])
    ensures var w' := Run(w, es + [CheckedSet(on)], tint).0;
            ShowsScheme(w', tint) && (!on ==> TickHidden(w'))
  {
    RunAppend(w, es, [CheckedSet(on)], tint);
    assert [CheckedSet(on)][1..] == [];
  }
}
