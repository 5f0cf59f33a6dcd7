/**
  Shape layers and colours, abstracted from the rendering framework.

  A colour is an opaque value: the only thing the checkbox ever does with colours
  is compare them and copy them into layer attributes. A shape layer is a record
  of the attributes the checkbox reads or writes.
*/
module Layers {
  import opened Geometry

  datatype Option<T> = None | Some(value: T)

  /** Opaque colours; `Clear` is the fully transparent colour. */
  datatype Color = Clear | White | LightGray | Black | Custom(name: string)

  /** The attributes of a shape layer the checkbox touches. */
  datatype ShapeLayer = ShapeLayer(
    path: Path,
    fillColor: Color,
    strokeColor: Color,
    borderColor: Color,
    borderWidth: real,
    lineWidth: real,
    strokeEnd: real)

  /** A freshly created shape layer: opaque black fill, no stroke (which draws
      like `Clear`), opaque black border of width 0, line width 1, full stroke. */
  function NewShapeLayer(path: Path): (l: ShapeLayer)
    ensures l.path == path && l.strokeColor == Clear && l.borderColor == Black && l.borderWidth == 0.0
  {
    ShapeLayer(path, Black, Clear, Black, 0.0, 1.0, 1.0)
  }

  /** Names of the attributes, so that a frame condition can say "all but one". */
  datatype Attr = FillColor | StrokeColor | BorderColor | BorderWidth | LineWidth | StrokeEnd | ShapePath

  predicate SameAttr(a: ShapeLayer, b: ShapeLayer, at: Attr)
  {
    match at
    case FillColor => a.fillColor == b.fillColor
    case StrokeColor => a.strokeColor == b.strokeColor
    case BorderColor => a.borderColor == b.borderColor
    case BorderWidth => a.borderWidth == b.borderWidth
    case LineWidth => a.lineWidth == b.lineWidth
    case StrokeEnd => a.strokeEnd == b.strokeEnd
    case ShapePath => a.path == b.path
  }

  /** `a` and `b` agree on every attribute in `keep`. */
  predicate AgreeOn(a: ShapeLayer, b: ShapeLayer, keep: set<Attr>)
  {
    forall at :: at in keep ==> SameAttr(a, b, at)
  }

  /** `a` and `b` agree on every attribute except possibly `at`. */
  predicate AgreeExcept(a: ShapeLayer, b: ShapeLayer, at: Attr)
  {
    forall other: Attr :: other != at ==> SameAttr(a, b, other)
  }

  // Optional-chaining writes: `layer?.attr = v` writes when the layer exists and
  // does nothing otherwise.

  function WriteFill(o: Option<ShapeLayer>, c: Color): (o': Option<ShapeLayer>)
    ensures o'.Some? == o.Some?
    ensures o.Some? ==> o'.value.fillColor == c && AgreeExcept(o.value, o'.value, FillColor)
  {
    match o
    case None => None
    case Some(l) => Some(l.(fillColor := c))
  }

  function WriteStroke(o: Option<ShapeLayer>, c: Color): (o': Option<ShapeLayer>)
    ensures o'.Some? == o.Some?
    ensures o.Some? ==> o'.value.strokeColor == c && AgreeExcept(o.value, o'.value, StrokeColor)
  {
    match o
    case None => None
    case Some(l) => Some(l.(strokeColor := c))
  }

  function WriteBorderColor(o: Option<ShapeLayer>, c: Color): (o': Option<ShapeLayer>)
    ensures o'.Some? == o.Some?
    ensures o.Some? ==> o'.value.borderColor == c && AgreeExcept(o.value, o'.value, BorderColor)
  {
    match o
    case None => None
    case Some(l) => Some(l.(borderColor := c))
  }

  function WriteBorderWidth(o: Option<ShapeLayer>, v: real): (o': Option<ShapeLayer>)
    ensures o'.Some? == o.Some?
    ensures o.Some? ==> o'.value.borderWidth == v && AgreeExcept(o.value, o'.value, BorderWidth)
  {
    match o
    case None => None
    case Some(l) => Some(l.(borderWidth := v))
  }

  function WriteLineWidth(o: Option<ShapeLayer>, v: real): (o': Option<ShapeLayer>)
    ensures o'.Some? == o.Some?
    ensures o.Some? ==> o'.value.lineWidth == v && AgreeExcept(o.value, o'.value, LineWidth)
  {
    match o
    case None => None
    case Some(l) => Some(l.(lineWidth := v))
  }
}
