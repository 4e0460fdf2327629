/** Properties that relate several shape mutators to one another: the
    geometry invariant they keep, the order in which repeated appends land,
    how calls compose, and the special cases of the path-space transform. */
module ShapeLaws {
  import opened Results
  import opened Bools
  import opened Paint
  import opened Shapes
  import Geometry
  import Paths

  // ------------------------------------------------------ geometry in sync

  /** The scalar setters never disturb the agreement between a rectangle's
      or ellipse's box and its selection rect. */
  lemma InSyncKeptByScalarSetters(s: Shape, flag: bool, x: real, m: Geometry.Matrix)
    requires InSync(s)
    ensures InSync(SetClip(s, flag)) && InSync(SetHidden(s, flag))
    ensures InSync(SetRotation(s, x)) && InSync(SetOpacity(s, x))
    ensures InSync(SetTransform(s, m.a, m.b, m.c, m.d, m.e, m.f))
  {
  }

  /** Nor does changing the blend mode. */
  lemma InSyncKeptBySetBlendMode(s: Shape, mode: BlendMode)
    requires InSync(s)
    ensures InSync(SetBlendMode(s, mode))
  {
  }

  /** Nor do the child, fill and stroke list operations, successful or not. */
  lemma InSyncKeptByListOps(s: Shape, id: Uuid, f: Fill, st: Stroke, buffer: seq<RawStop>)
    requires InSync(s)
    ensures InSync(AddChild(s, id)) && InSync(ClearChildren(s))
    ensures InSync(AddFill(s, f)) && InSync(ClearFills(s))
    ensures InSync(AddFillGradientStops(s, buffer).shape)
    ensures InSync(AddStroke(s, st)) && InSync(ClearStrokes(s))
    ensures InSync(SetStrokeFill(s, f).shape)
    ensures InSync(AddStrokeGradientStops(s, buffer).shape)
  {
  }

  /** Turning a shape into a path or boolean shape leaves no box to disagree
      with, and moving the selection rect restores the agreement whatever the
      shape was before; only `SetKind` can break it. */
  lemma InSyncAfterKindChanges(s: Shape, op: BoolType, segments: seq<Paths.RawPathData>, parse: Paths.PathParser,
                               l: real, t: real, r: real, b: real)
    ensures InSync(SetSelrect(s, l, t, r, b))
    ensures InSync(SetBoolType(s, op))
    ensures InSync(s) ==> InSync(SetPathSegments(s, segments, parse).shape)
  {
  }

  /** Moving the selection rect twice is the same as moving it once to the
      second place. */
  lemma SetSelrectLastWins(s: Shape, l1: real, t1: real, r1: real, b1: real,
                           l2: real, t2: real, r2: real, b2: real)
    ensures SetSelrect(SetSelrect(s, l1, t1, r1, b1), l2, t2, r2, b2) == SetSelrect(s, l2, t2, r2, b2)
  {
  }

  // --------------------------------------------------------- append order

  /** The shape after adding each id of `ids` in turn. */
  function AddChildren(s: Shape, ids: seq<Uuid>): Shape
    decreases |ids|
  {
    if |ids| == 0 then s else AddChildren(AddChild(s, ids[0]), ids[1..])
  }

  /** Children land in the order they were added, after the existing ones,
      and nothing else about the shape changes. */
  lemma {:induction false} AddChildrenInOrder(s: Shape, ids: seq<Uuid>)
    ensures AddChildren(s, ids) == s.(children := s.children + ids)
    decreases |ids|
  {
    if |ids| > 0 {
      AddChildrenInOrder(AddChild(s, ids[0]), ids[1..]);
      assert (s.children + [ids[0]]) + ids[1..] == s.children + ids;
    }
  }

  /** The shape after adding each fill of `fs` in turn. */
  function AddFills(s: Shape, fs: seq<Fill>): Shape
    decreases |fs|
  {
    if |fs| == 0 then s else AddFills(AddFill(s, fs[0]), fs[1..])
  }

  /** Fills stack in the order they were added: the first added is painted
      first, the last added ends up on top. */
  lemma {:induction false} AddFillsInOrder(s: Shape, fs: seq<Fill>)
    ensures AddFills(s, fs) == s.(fills := s.fills + fs)
    decreases |fs|
  {
    if |fs| > 0 {
      AddFillsInOrder(AddFill(s, fs[0]), fs[1..]);
      assert (s.fills + [fs[0]]) + fs[1..] == s.fills + fs;
    }
  }

  /** Clearing forgets every earlier fill: after clear-then-add the new fill
      is the only one. */
  lemma ClearThenAddFill(s: Shape, f: Fill)
    ensures AddFill(ClearFills(s), f).fills == [f]
  {
  }

  // ------------------------------------------------------- gradient stops

  /** Adding stops to the last fill in two calls is the same as adding both
      buffers in one call, and a failing first call fails the same way as the
      single call. */
  lemma FillGradientStopsCompose(s: Shape, b1: seq<RawStop>, b2: seq<RawStop>)
    ensures AddFillGradientStops(s, b1).result.Ok? ==>
              AddFillGradientStops(AddFillGradientStops(s, b1).shape, b2) == AddFillGradientStops(s, b1 + b2)
    ensures AddFillGradientStops(s, b1).result.Err? ==>
              AddFillGradientStops(s, b1) == AddFillGradientStops(s, b1 + b2)
  {
    if |s.fills| > 0 && IsGradient(s.fills[|s.fills| - 1]) {
      var n := |s.fills|;
      var f := s.fills[n - 1];
      FillWithStopsAppend(f, b1, b2);
      var s1 := AddFillGradientStops(s, b1).shape;
      assert s1.fills == ReplaceLast(s.fills, FillWithStops(f, b1).value);
      assert ReplaceLast(s1.fills, FillWithStops(FillWithStops(f, b1).value, b2).value)
          == ReplaceLast(s.fills, FillWithStops(f, b1 + b2).value);
    }
  }

  /** Repainting the last stroke and then adding stops succeeds exactly when
      the new paint is a gradient, linear or radial; the stroke is then
      painted with that gradient extended by exactly those stops, and the
      other strokes are as before. */
  lemma StrokeFillThenStops(s: Shape, f: Fill, buffer: seq<RawStop>)
    requires |s.strokes| > 0
    ensures var a := AddStrokeGradientStops(SetStrokeFill(s, f).shape, buffer);
            && (a.result.Ok? <==> IsGradient(f))
            && (!IsGradient(f) ==> a.result == Err(StrokeNotGradient))
            && (IsGradient(f) ==>
                  && |a.shape.strokes| == |s.strokes|
                  && a.shape.strokes[..|s.strokes| - 1] == s.strokes[..|s.strokes| - 1]
                  && a.shape.strokes[|s.strokes| - 1].fill == FillWithStops(f, buffer).value
                  && a.shape.strokes[|s.strokes| - 1].fill.LinearGradient? == f.LinearGradient?
                  && a.shape.strokes[|s.strokes| - 1].fill.gradient.stops == f.gradient.stops + StopsOf(buffer))
  {
  }

  // ------------------------------------------------------- kind transitions

  /** Changing the operator twice keeps the boolean shape's path; only the
      operator changes, and the last one set wins. */
  lemma SetBoolTypeTwice(s: Shape, op1: BoolType, op2: BoolType)
    ensures SetBoolType(SetBoolType(s, op1), op2).kind.path == SetBoolType(s, op1).kind.path
    ensures SetBoolType(SetBoolType(s, op1), op2) == SetBoolType(s, op2)
  {
  }

  /** Choosing an operator and then installing a path always yields the
      boolean combination `op` of the decoded path. In the other order the
      path survives only if the shape was already boolean: a plain path shape
      that is given an operator starts again from the empty path. */
  lemma PathAndBoolTypeOrder(s: Shape, op: BoolType, segments: seq<Paths.RawPathData>, parse: Paths.PathParser)
    requires parse(segments).Ok?
    ensures SetPathSegments(SetBoolType(s, op), segments, parse).shape.kind == Bool(op, parse(segments).value)
    ensures s.kind.Bool? ==>
              SetBoolType(SetPathSegments(s, segments, parse).shape, op).kind == Bool(op, parse(segments).value)
    ensures !s.kind.Bool? ==>
              SetBoolType(SetPathSegments(s, segments, parse).shape, op).kind == Bool(op, Paths.EmptyPath)
  {
  }

  // -------------------------------------------------- path-space transform

  /** A transform that only translates has nothing to undo: the path-space
      transform of a path or boolean shape is then the identity. */
  lemma TranslationOnlyIsIdentity(s: Shape)
    requires s.kind.Path? || s.kind.Bool?
    requires s.transform.a == 1.0 && s.transform.b == 0.0 && s.transform.c == 0.0 && s.transform.d == 1.0
    ensures ToPathTransform(s) == Some(Geometry.Identity)
  {
    var c := Geometry.Center(s.selrect);
    var linear := Geometry.NoTranslation(s.transform);
    assert linear == Geometry.Identity;
    Geometry.InvertIdentity();
    PathSpaceOfIdentity(c);
  }

  /** The path-space transform does not depend on where the shape is placed:
      only the transform's linear part enters it. */
  lemma PathTransformIgnoresTranslation(s: Shape, e: real, f: real)
    ensures ToPathTransform(s.(transform := s.transform.(e := e, f := f))) == ToPathTransform(s)
  {
    assert Geometry.NoTranslation(s.transform.(e := e, f := f)) == Geometry.NoTranslation(s.transform);
  }

  /** A freshly created shape is a rectangle, so it has no path-space
      transform until it becomes a path or boolean shape. */
  lemma NewHasNoPathTransform(id: Uuid, blend: BlendMode, op: BoolType)
    ensures ToPathTransform(New(id, blend)).None?
    ensures ToPathTransform(SetBoolType(New(id, blend), op)) == Some(Geometry.Identity)
  {
    TranslationOnlyIsIdentity(SetBoolType(New(id, blend), op));
  }
}
