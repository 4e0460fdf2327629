/** A renderer scene node (render-wasm/src/shapes.rs): identity, child order,
    geometry kind, bounds, transform, paint lists and display flags, with the
    mutators the host calls on it. Every mutator is a pure function from the
    shape before the call to the shape after it; a fallible mutator also
    reports its result, and on failure hands the shape back untouched. */
module Shapes {
  import opened Results
  import opened Bools
  import opened Paint
  import Geometry
  import Paths

  /** A 128-bit identifier. */
  type Uuid = u: int | 0 <= u < 0x1_0000_0000_0000_0000_0000_0000_0000_0000

  /** A compositing mode of the rendering backend, stored and handed back
      unchanged. */
  datatype BlendMode = BlendMode(code: nat)

  /** The geometry of a shape. A boolean shape always carries its operator,
      even while its path is still empty. */
  datatype Kind =
    | Rect(box: Geometry.Rect)
    | Circle(box: Geometry.Rect)
    | Path(path: Paths.Path)
    | Bool(op: BoolType, path: Paths.Path)

  datatype Shape = Shape(
    id: Uuid,
    children: seq<Uuid>,
    kind: Kind,
    selrect: Geometry.Rect,
    transform: Geometry.Matrix,
    rotation: real,
    clipContent: bool,
    fills: seq<Fill>,
    strokes: seq<Stroke>,
    blendMode: BlendMode,
    opacity: real,
    hidden: bool
  )

  /** Why a fallible mutator refused to change the shape. */
  datatype ShapeError =
    | NoFills
    | FillNotGradient
    | NoStrokes
    | StrokeNotGradient
    | PathError(message: string)

  /** The message the renderer reports for each error: a fixed text for
      the fill and stroke errors, and the decoder's own text, passed on
      unchanged, for a path error. */
  function Message(e: ShapeError): (m: string)
    ensures e.PathError? ==> m == e.message
  {
    match e
    case NoFills => "Shape has no fills"
    case FillNotGradient => "Active fill is not a gradient"
    case NoStrokes => "Shape has no strokes"
    case StrokeNotGradient => "Active stroke is not a gradient"
    case PathError(m) => m
  }

  /** The outcome of a fallible mutator: the shape after the call and what the
      call returned. */
  datatype Applied = Applied(shape: Shape, result: Result<(), ShapeError>)

  /** Primitive geometry agrees with the selection rect: a rectangle or an
      ellipse is drawn in exactly the box the shape is selected by. */
  predicate InSync(s: Shape)
  {
    (s.kind.Rect? || s.kind.Circle?) ==> s.kind.box == s.selrect
  }

  // ---------------------------------------------------------------- creation

  /** A fresh shape: an empty rectangle with no children and no paint, fully
      opaque, visible and clipping its content. `defaultBlend` is the backend's
      default blend mode. */
  function New(id: Uuid, defaultBlend: BlendMode): (s: Shape)
    ensures s.id == id
    ensures s.kind == Rect(Geometry.EmptyRect) && s.selrect == Geometry.EmptyRect
    ensures s.transform == Geometry.Identity && s.rotation == 0.0
    ensures s.children == [] && s.fills == [] && s.strokes == []
    ensures s.clipContent && !s.hidden && s.opacity == 1.0
    ensures s.blendMode == defaultBlend
    ensures InSync(s)
  {
    Shape(id, [], Rect(Geometry.EmptyRect), Geometry.EmptyRect, Geometry.Identity,
          0.0, true, [], [], defaultBlend, 1.0, false)
  }

  // ------------------------------------------------------ geometry and kind

  /** Moves the selection rect; a rectangle or ellipse follows it, a path or
      boolean shape keeps its geometry. */
  function SetSelrect(s: Shape, left: real, top: real, right: real, bottom: real): (s': Shape)
    ensures s'.selrect == Geometry.Rect(left, top, right, bottom)
    ensures s'.kind.Rect? == s.kind.Rect? && s'.kind.Circle? == s.kind.Circle?
    ensures s.kind.Rect? || s.kind.Circle? ==> s'.kind.box == Geometry.Rect(left, top, right, bottom)
    ensures s.kind.Path? || s.kind.Bool? ==> s'.kind == s.kind
    ensures s' == s.(selrect := s'.selrect, kind := s'.kind)
    ensures InSync(s')
  {
    var box := Geometry.Rect(left, top, right, bottom);
    var kind := match s.kind
      case Rect(_) => Rect(box)
      case Circle(_) => Circle(box)
      case _ => s.kind;
    s.(selrect := box, kind := kind)
  }

  /** Replaces the geometry wholesale. */
  function SetKind(s: Shape, kind: Kind): (s': Shape)
    ensures s'.kind == kind
    ensures s' == s.(kind := s'.kind)
  {
    s.(kind := kind)
  }

  /** Installs the path decoded from a host buffer. A boolean shape keeps its
      operator and takes the new path; any other shape becomes a plain path.
      A buffer the decoder rejects leaves the shape as it was. */
  function SetPathSegments(s: Shape, buffer: seq<Paths.RawPathData>, parse: Paths.PathParser): (a: Applied)
    ensures parse(buffer).Err? ==> a == Applied(s, Err(PathError(parse(buffer).error)))
    ensures a.result.Err? <==> parse(buffer).Err?
    ensures a.result.Err? ==> Message(a.result.error) == parse(buffer).error
    ensures parse(buffer).Ok? ==>
              && a.result.Ok?
              && a.shape == s.(kind := a.shape.kind)
              && a.shape.kind.Bool? == s.kind.Bool?
              && (!s.kind.Bool? ==> a.shape.kind.Path?)
              && a.shape.kind.path == parse(buffer).value
              && (s.kind.Bool? ==> a.shape.kind.op == s.kind.op)
  {
    match parse(buffer)
    case Err(msg) => Applied(s, Err(PathError(msg)))
    case Ok(p) =>
      var kind := match s.kind
        case Bool(op, _) => Bool(op, p)
        case _ => Path(p);
      Applied(s.(kind := kind), Ok(()))
  }

  /** Makes the shape a boolean shape with operator `op`. An existing boolean
      shape keeps its path; any other shape starts from the empty path. */
  function SetBoolType(s: Shape, op: BoolType): (s': Shape)
    ensures s'.kind.Bool? && s'.kind.op == op
    ensures s.kind.Bool? ==> s'.kind.path == s.kind.path
    ensures !s.kind.Bool? ==> s'.kind.path == Paths.EmptyPath
    ensures s' == s.(kind := s'.kind)
  {
    var kind := match s.kind
      case Bool(_, path) => Bool(op, path)
      case _ => Bool(op, Paths.EmptyPath);
    s.(kind := kind)
  }

  // ---------------------------------------------------------- scalar fields

  function SetClip(s: Shape, value: bool): (s': Shape)
    ensures s'.clipContent == value
    ensures s' == s.(clipContent := s'.clipContent)
  {
    s.(clipContent := value)
  }

  function SetRotation(s: Shape, angle: real): (s': Shape)
    ensures s'.rotation == angle
    ensures s' == s.(rotation := s'.rotation)
  {
    s.(rotation := angle)
  }

  /** Stores the affine matrix (a, b, c, d, e, f). */
  function SetTransform(s: Shape, a: real, b: real, c: real, d: real, e: real, f: real): (s': Shape)
    ensures s'.transform == Geometry.Matrix(a, b, c, d, e, f)
    ensures s' == s.(transform := s'.transform)
  {
    s.(transform := Geometry.Matrix(a, b, c, d, e, f))
  }

  /** Stores the opacity as given; no range check is made. */
  function SetOpacity(s: Shape, opacity: real): (s': Shape)
    ensures s'.opacity == opacity
    ensures s' == s.(opacity := s'.opacity)
  {
    s.(opacity := opacity)
  }

  function SetHidden(s: Shape, value: bool): (s': Shape)
    ensures s'.hidden == value
    ensures s' == s.(hidden := s'.hidden)
  {
    s.(hidden := value)
  }

  function SetBlendMode(s: Shape, mode: BlendMode): (s': Shape)
    ensures s'.blendMode == mode
    ensures s' == s.(blendMode := s'.blendMode)
  {
    s.(blendMode := mode)
  }

  // --------------------------------------------------------------- children

  /** Appends a child id; the children's order is their render order. */
  function AddChild(s: Shape, id: Uuid): (s': Shape)
    ensures |s'.children| == |s.children| + 1
    ensures s'.children[..|s.children|] == s.children
    ensures Last(s'.children) == Some(id)
    ensures s' == s.(children := s'.children)
  {
    s.(children := s.children + [id])
  }

  function ClearChildren(s: Shape): (s': Shape)
    ensures s'.children == []
    ensures s' == s.(children := s'.children)
  {
    s.(children := [])
  }

  // ------------------------------------------------------------------ fills

  /** Appends a fill on top of the existing ones. */
  function AddFill(s: Shape, f: Fill): (s': Shape)
    ensures |s'.fills| == |s.fills| + 1
    ensures s'.fills[..|s.fills|] == s.fills
    ensures Last(s'.fills) == Some(f)
    ensures s' == s.(fills := s'.fills)
  {
    s.(fills := s.fills + [f])
  }

  function ClearFills(s: Shape): (s': Shape)
    ensures s'.fills == []
    ensures s' == s.(fills := s'.fills)
  {
    s.(fills := [])
  }

  /** Appends the stops of a host buffer, in buffer order, to the gradient of
      the most recently added fill. Fails, changing nothing, when the shape has
      no fills or when its last fill is a solid colour. */
  function AddFillGradientStops(s: Shape, buffer: seq<RawStop>): (a: Applied)
    ensures |s.fills| == 0 ==> a == Applied(s, Err(NoFills))
    ensures |s.fills| > 0 && !IsGradient(s.fills[|s.fills| - 1]) ==> a == Applied(s, Err(FillNotGradient))
    ensures a.result.Err? ==>
              Message(a.result.error)
              == if |s.fills| == 0 then "Shape has no fills" else "Active fill is not a gradient"
    ensures a.result.Ok? <==> |s.fills| > 0 && IsGradient(s.fills[|s.fills| - 1])
    ensures a.result.Ok? ==>
              var n := |s.fills|;
              && |a.shape.fills| == n
              && a.shape.fills[..n - 1] == s.fills[..n - 1]
              && IsGradient(a.shape.fills[n - 1])
              && a.shape.fills[n - 1].LinearGradient? == s.fills[n - 1].LinearGradient?
              && a.shape.fills[n - 1].gradient.stops == s.fills[n - 1].gradient.stops + StopsOf(buffer)
              && a.shape == s.(fills := a.shape.fills)
  {
    match Last(s.fills)
    case None => Applied(s, Err(NoFills))
    case Some(f) =>
      match FillWithStops(f, buffer)
      case None => Applied(s, Err(FillNotGradient))
      case Some(f') => Applied(s.(fills := ReplaceLast(s.fills, f')), Ok(()))
  }

  // ---------------------------------------------------------------- strokes

  /** Appends a stroke on top of the existing ones. */
  function AddStroke(s: Shape, st: Stroke): (s': Shape)
    ensures |s'.strokes| == |s.strokes| + 1
    ensures s'.strokes[..|s.strokes|] == s.strokes
    ensures Last(s'.strokes) == Some(st)
    ensures s' == s.(strokes := s'.strokes)
  {
    s.(strokes := s.strokes + [st])
  }

  function ClearStrokes(s: Shape): (s': Shape)
    ensures s'.strokes == []
    ensures s' == s.(strokes := s'.strokes)
  {
    s.(strokes := [])
  }

  /** Repaints the most recently added stroke with `f`, keeping its geometry.
      Fails, changing nothing, when the shape has no strokes. */
  function SetStrokeFill(s: Shape, f: Fill): (a: Applied)
    ensures |s.strokes| == 0 ==> a == Applied(s, Err(NoStrokes))
    ensures a.result.Err? ==> Message(a.result.error) == "Shape has no strokes"
    ensures |s.strokes| > 0 ==>
              var n := |s.strokes|;
              && a.result.Ok?
              && |a.shape.strokes| == n
              && a.shape.strokes[..n - 1] == s.strokes[..n - 1]
              && a.shape.strokes[n - 1].fill == f
              && a.shape.strokes[n - 1].width == s.strokes[n - 1].width
              && a.shape.strokes[n - 1].style == s.strokes[n - 1].style
              && a.shape == s.(strokes := a.shape.strokes)
  {
    match Last(s.strokes)
    case None => Applied(s, Err(NoStrokes))
    case Some(st) => Applied(s.(strokes := ReplaceLast(s.strokes, st.(fill := f))), Ok(()))
  }

  /** Appends the stops of a host buffer, in buffer order, to the gradient
      that paints the most recently added stroke. Fails, changing nothing,
      when the shape has no strokes or when that stroke is painted with a
      solid colour. */
  function AddStrokeGradientStops(s: Shape, buffer: seq<RawStop>): (a: Applied)
    ensures |s.strokes| == 0 ==> a == Applied(s, Err(NoStrokes))
    ensures |s.strokes| > 0 && !IsGradient(s.strokes[|s.strokes| - 1].fill) ==> a == Applied(s, Err(StrokeNotGradient))
    ensures a.result.Err? ==>
              Message(a.result.error)
              == if |s.strokes| == 0 then "Shape has no strokes" else "Active stroke is not a gradient"
    ensures a.result.Ok? <==> |s.strokes| > 0 && IsGradient(s.strokes[|s.strokes| - 1].fill)
    ensures a.result.Ok? ==>
              var n := |s.strokes|;
              && |a.shape.strokes| == n
              && a.shape.strokes[..n - 1] == s.strokes[..n - 1]
              && a.shape.strokes[n - 1].width == s.strokes[n - 1].width
              && a.shape.strokes[n - 1].style == s.strokes[n - 1].style
              && IsGradient(a.shape.strokes[n - 1].fill)
              && a.shape.strokes[n - 1].fill.LinearGradient? == s.strokes[n - 1].fill.LinearGradient?
              && a.shape.strokes[n - 1].fill.gradient.stops
                 == s.strokes[n - 1].fill.gradient.stops + StopsOf(buffer)
              && a.shape == s.(strokes := a.shape.strokes)
  {
    match Last(s.strokes)
    case None => Applied(s, Err(NoStrokes))
    case Some(st) =>
      match FillWithStops(st.fill, buffer)
      case None => Applied(s, Err(StrokeNotGradient))
      case Some(f') => Applied(s.(strokes := ReplaceLast(s.strokes, st.(fill := f'))), Ok(()))
  }

  // ---------------------------------------------------- path-space transform

  /** The matrix that takes a path or boolean shape's transformed geometry
      back into the shape's own axis-aligned frame, pivoting on the centre of
      its selection rect. Rectangles and ellipses have none, and neither has
      a shape whose transform, translation removed, is singular. */
  function ToPathTransform(s: Shape): (m: Option<Geometry.Matrix>)
    ensures m.None? <==>
              (s.kind.Rect? || s.kind.Circle?
               || Geometry.Determinant(Geometry.NoTranslation(s.transform)) == 0.0)
    ensures m.Some? ==> Geometry.Apply(m.value, Geometry.Center(s.selrect)) == Geometry.Center(s.selrect)
    ensures m.Some? ==> forall v :: UndoesLinearAt(m.value, s, v)
  {
    match s.kind
    case Rect(_) => None
    case Circle(_) => None
    case _ =>
      var c := Geometry.Center(s.selrect);
      var linear := Geometry.NoTranslation(s.transform);
      match Geometry.Invert(linear)
      case None => None
      case Some(inv) =>
        var m := PathSpace(c, inv);
        assert forall v :: UndoesLinearAt(m, s, v) by {
          forall v ensures UndoesLinearAt(m, s, v) {
            PathSpaceUndoesLinear(c, linear, v);
          }
        }
        PathSpaceFixesCentre(c, linear);
        Some(m)
  }

  /** The composition the renderer builds from the identity: pre-translate
      by the centre, pre-multiply by the inverse of the linear part, then
      pre-translate by minus the centre. What it does to points is stated by
      PathSpaceUndoesLinear, PathSpaceFixesCentre and PathSpaceOfIdentity. */
  function PathSpace(c: Geometry.Point, inv: Geometry.Matrix): Geometry.Matrix
  {
    Geometry.PreTranslate(Geometry.Concat(Geometry.PreTranslate(Geometry.Identity, c), inv),
                          Geometry.Point(-c.x, -c.y))
  }

  /** `m` sends the point the shape's linear part (its transform without
      translation) puts at offset `v` from the centre back to offset `v`. */
  predicate UndoesLinearAt(m: Geometry.Matrix, s: Shape, v: Geometry.Point)
  {
    var c := Geometry.Center(s.selrect);
    var w := Geometry.Apply(Geometry.NoTranslation(s.transform), v);
    Geometry.Apply(m, Geometry.Point(c.x + w.x, c.y + w.y)) == Geometry.Point(c.x + v.x, c.y + v.y)
  }

  /** Built from an invertible linear part, the path-space matrix undoes
      that linear part around the pivot `c`. */
  lemma PathSpaceUndoesLinear(c: Geometry.Point, linear: Geometry.Matrix, v: Geometry.Point)
    requires linear.e == 0.0 && linear.f == 0.0 && Geometry.Determinant(linear) != 0.0
    ensures var w := Geometry.Apply(linear, v);
            Geometry.Apply(PathSpace(c, Geometry.Invert(linear).value), Geometry.Point(c.x + w.x, c.y + w.y))
            == Geometry.Point(c.x + v.x, c.y + v.y)
  {
    var inv := Geometry.Invert(linear).value;
    var toCentre := Geometry.PreTranslate(Geometry.Identity, c);
    var mid := Geometry.Concat(toCentre, inv);
    var w := Geometry.Apply(linear, v);
    var q := Geometry.Point(c.x + w.x, c.y + w.y);
    Geometry.PreTranslateApply(mid, Geometry.Point(-c.x, -c.y), q);
    assert Geometry.Point(q.x + -c.x, q.y + -c.y) == w;
    Geometry.PreTranslateIdentity(c);
    Geometry.TranslationConcatApply(c, inv, w);
    Geometry.InvertApply(linear, v);
  }

  /** The pivot itself stays put. */
  lemma PathSpaceFixesCentre(c: Geometry.Point, linear: Geometry.Matrix)
    requires linear.e == 0.0 && linear.f == 0.0 && Geometry.Determinant(linear) != 0.0
    ensures Geometry.Apply(PathSpace(c, Geometry.Invert(linear).value), c) == c
  {
    var origin := Geometry.Point(0.0, 0.0);
    PathSpaceUndoesLinear(c, linear, origin);
    assert Geometry.Apply(linear, origin) == origin;
    assert Geometry.Point(c.x + origin.x, c.y + origin.y) == c;
  }

  /** With nothing to undo the path-space matrix is the identity, wherever
      the pivot lies. */
  lemma PathSpaceOfIdentity(c: Geometry.Point)
    ensures PathSpace(c, Geometry.Identity) == Geometry.Identity
  {
    var toCentre := Geometry.PreTranslate(Geometry.Identity, c);
    Geometry.PreTranslateIdentity(c);
    assert Geometry.Concat(toCentre, Geometry.Identity) == toCentre;
    assert Geometry.PreTranslate(toCentre, Geometry.Point(-c.x, -c.y)) == Geometry.Identity;
  }
}
