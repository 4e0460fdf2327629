# Shape attribute model of the penpot WebAssembly renderer

This project models, in Dafny, the scene node `Shape` of penpot's WebAssembly
renderer (`render-wasm/src/shapes.rs`) and the boolean operator tag
`BoolType` (`render-wasm/src/shapes/bools.rs`).

A shape has an id, an ordered list of child ids and a geometry `Kind`:
`Rect`, `Circle`, `Path` or `Bool(op, path)`. It also has a selection rect,
an affine transform, a rotation, ordered fills and strokes, a blend mode, an
opacity and the `hidden` and `clip_content` flags.

The renderer changes shapes in place. Here every mutator is a pure function
from the shape before the call to the shape after it. A fallible mutator
returns an `Applied` value: the shape after the call plus the `Result` the
call reports. So "a failing call changes nothing" is a checked postcondition:
the error case hands back the input shape.

Modules, one per component:

- `Results`: `Option`, `Result`, and the last-element accessor used by the
  "edit the last fill or stroke" operations.
- `Bools`: `BoolType`, its default and the total decoder from a host byte.
- `Geometry`: points, rects, and affine matrices over the reals. It defines
  product, pre-translation, translation removal and inverse, each proved
  against its action on points: the product applies its right factor first,
  and the inverse undoes its matrix.
- `Paint`: colours, gradient stops, gradients, fills and strokes.
- `Paths`: path segments, paths, raw segment records, and the type of a path
  decoder.
- `Shapes`: the `Shape` record, its constructor and every mutator. It also
  holds the kind dispatch and the matrix of `to_path_transform`.
- `ShapeLaws`: properties that relate several mutators. These cover the
  rect/geometry invariant, append order, how calls compose, how kind changes
  interact, and special cases of the path-space transform.

The path-space transform is modelled over the reals. The matrix is
translate-to-centre, then the inverse of the transform without its
translation, then translate-back. Its contract proves three things:

- the centre of the selection rect is a fixed point;
- the matrix exactly undoes the transform's linear part around that centre;
- it is absent exactly for rectangles, ellipses and singular linear parts.

The code returns `None` in two cases: for `Rect`/`Circle`, and when the
transform without translation cannot be inverted (`invert()?`). The model
follows the code, so "no path transform" holds exactly for rectangles,
ellipses and singular linear parts. It is not limited to rectangles and
ellipses.

## Model

| member | source | states |
|---|---|---|
| Bools.FromU8 | render-wasm/src/shapes/bools.rs:9-19 | the decoder is total over 0..255; tags 0-3 decode to the operator whose code they are; every tag of 4 or more decodes to the default |
| Bools.Default | render-wasm/src/shapes/bools.rs:21-25 | the default operator is `Union` |
| Bools.Code | render-wasm/src/shapes/bools.rs:1-7 | the four operators are numbered 0-3 in declaration order, each code below 4 |
| Bools.FromCode | render-wasm/src/shapes/bools.rs:11-15 | decoding an operator's code gives the operator back, so each operator is reachable |
| Bools.FromU8Table | render-wasm/src/shapes/bools.rs:12-15 | 0, 1, 2, 3 decode to Union, Difference, Intersection, Exclusion |
| Bools.FromU8UnionIff | render-wasm/src/shapes/bools.rs:11-16 | `Union` comes out exactly for 0 and every tag of 4 or more; each other operator comes out of exactly one tag |
| Results.Last | render-wasm/src/shapes.rs:129 | the last element is absent exactly for the empty list, and otherwise is the element at the final index |
| Results.ReplaceLast | render-wasm/src/shapes.rs:152-153 | replacing the last element keeps the length and every earlier element, and makes the new value the last |
| Geometry.Center | render-wasm/src/shapes.rs:204 | the centre is equidistant from opposite edges of the rect |
| Geometry.ConcatApply | render-wasm/src/shapes.rs:207 | the product of two matrices, as `pre_concat` forms it, maps every point by the right factor first and then by the left one |
| Geometry.TranslationConcatApply | render-wasm/src/shapes.rs:206-207 | a translation multiplied onto a matrix shifts every image of that matrix by the translation |
| Geometry.PreTranslateIdentity | render-wasm/src/shapes.rs:205-206 | pre-translating the identity gives the plain translation |
| Geometry.PreTranslateApply | render-wasm/src/shapes.rs:206 | a pre-translated matrix moves a point by the translation before applying the matrix |
| Geometry.NoTranslationApply | render-wasm/src/shapes.rs:207 | removing the translation shifts every image back by (e, f) |
| Geometry.Invert | render-wasm/src/shapes.rs:207 | the inverse is absent exactly for a zero determinant; the inverse of a translation-free matrix is translation-free |
| Geometry.InvertApply | render-wasm/src/shapes.rs:207 | the inverse, applied after the matrix, returns every point to itself |
| Geometry.InvertIdentity | render-wasm/src/shapes.rs:207 | the identity matrix inverts to itself |
| Paint.StopOf | render-wasm/src/shapes.rs:137 | the stop read from a host record carries that record's colour and offset |
| Paint.StopsOf | render-wasm/src/shapes.rs:136-138 | a buffer yields one stop per record, in record order |
| Paint.StopsOfFirst | render-wasm/src/shapes.rs:136-138 | the stops of a non-empty buffer are its first record's stop followed by those of the rest |
| Paint.AddStop | render-wasm/src/shapes.rs:137 | adding a stop keeps every existing stop in place and puts the new stop after them |
| Paint.AddStops | render-wasm/src/shapes.rs:136-138 | adding a buffer stop by stop leaves the old stops followed by the buffer's stops, in buffer order |
| Paint.FillWithStops | render-wasm/src/shapes.rs:130-138 | only linear and radial fills accept stops; the result keeps its variant and gains the buffer's stops after its own |
| Paint.StopsOfAppend | render-wasm/src/shapes.rs:136-138 | reading two buffers in turn gives the first buffer's stops followed by the second's |
| Paint.FillWithStopsAppend | render-wasm/src/shapes.rs:136-138 | adding two buffers in two calls equals adding their concatenation in one |
| Shapes.New | render-wasm/src/shapes.rs:50-65 | a new shape is an empty rect with an equal empty selection rect and the identity transform; it has no children, fills or strokes, rotation 0 and opacity 1, is visible, clips its content and uses the default blend mode |
| Shapes.SetSelrect | render-wasm/src/shapes.rs:71-82 | the selection rect becomes (l, t, r, b); a Rect or Circle keeps its tag and its box becomes that rect; Path and Bool kinds are untouched; nothing else changes, and geometry and selection rect agree afterwards |
| Shapes.SetKind | render-wasm/src/shapes.rs:84-86 | the kind is replaced and nothing else changes |
| Shapes.Message | render-wasm/src/shapes.rs:128-178 | a path error reports the decoder's own text unchanged; the fill and stroke errors report the fixed texts the mutators below state |
| Shapes.SetPathSegments | render-wasm/src/shapes.rs:177-186 | the call fails exactly when the decoder does, returning the decoder's message with the shape unchanged; on success a Bool shape keeps its operator and takes the path, any other kind becomes Path of it, and nothing else changes |
| Shapes.SetBoolType | render-wasm/src/shapes.rs:192-199 | the shape becomes Bool with the given operator; an existing Bool keeps its path, any other kind starts from the empty path; nothing else changes |
| Shapes.SetClip | render-wasm/src/shapes.rs:88-90 | only the clip flag changes, to the given value |
| Shapes.SetRotation | render-wasm/src/shapes.rs:92-94 | only the rotation changes, to the given angle |
| Shapes.SetTransform | render-wasm/src/shapes.rs:96-98 | only the transform changes, to the matrix of the six given values |
| Shapes.SetOpacity | render-wasm/src/shapes.rs:100-102 | only the opacity changes, to the given value, with no range check |
| Shapes.SetHidden | render-wasm/src/shapes.rs:104-106 | only the hidden flag changes, to the given value |
| Shapes.SetBlendMode | render-wasm/src/shapes.rs:188-190 | only the blend mode changes, to the given mode |
| Shapes.AddChild | render-wasm/src/shapes.rs:108-110 | the child list grows by one, keeps its earlier ids and ends with the new id; nothing else changes |
| Shapes.ClearChildren | render-wasm/src/shapes.rs:112-114 | the child list becomes empty; nothing else changes |
| Shapes.AddFill | render-wasm/src/shapes.rs:120-122 | the fill list grows by one, keeps its earlier fills and ends with the new fill; nothing else changes |
| Shapes.ClearFills | render-wasm/src/shapes.rs:124-126 | the fill list becomes empty; nothing else changes |
| Shapes.AddFillGradientStops | render-wasm/src/shapes.rs:128-141 | no fills fails with "Shape has no fills" and a last fill that is not a gradient fails with "Active fill is not a gradient", both with the shape unchanged; it succeeds exactly when the last fill is a gradient, and then only that gradient changes: it keeps its variant and gains the buffer's stops after its own, in order |
| Shapes.AddStroke | render-wasm/src/shapes.rs:147-149 | the stroke list grows by one, keeps its earlier strokes and ends with the new stroke; nothing else changes |
| Shapes.ClearStrokes | render-wasm/src/shapes.rs:173-175 | the stroke list becomes empty; nothing else changes |
| Shapes.SetStrokeFill | render-wasm/src/shapes.rs:151-155 | no strokes fails with "Shape has no strokes" and the shape unchanged, and that is its only failure; otherwise only the last stroke's fill is replaced, and its width, style and all other strokes are kept |
| Shapes.AddStrokeGradientStops | render-wasm/src/shapes.rs:157-171 | no strokes fails with "Shape has no strokes" and a last-stroke fill that is not a gradient fails with "Active stroke is not a gradient", both with the shape unchanged; it succeeds exactly when that fill is a gradient, and then only that gradient gains the buffer's stops, in order; the stroke's width and style are kept |
| Shapes.ToPathTransform | render-wasm/src/shapes.rs:201-214 | absent exactly for Rect, Circle or a singular transform without translation; otherwise it fixes the centre of the selection rect and undoes the transform's linear part around that centre |
| Shapes.PathSpaceUndoesLinear | render-wasm/src/shapes.rs:204-210 | the matrix built from the identity by translating to the centre, multiplying by the inverse of an invertible linear part and translating back sends the linear image of every offset v from the centre back to offset v from the centre |
| Shapes.PathSpaceFixesCentre | render-wasm/src/shapes.rs:204-210 | the built matrix leaves the centre it pivots on where it is |
| Shapes.PathSpaceOfIdentity | render-wasm/src/shapes.rs:204-210 | when the linear part is the identity the built matrix is the identity, wherever the centre lies |
| ShapeLaws.InSyncKeptByScalarSetters | render-wasm/src/shapes.rs:88-106 | the clip, rotation, transform, opacity and hidden setters keep rect and ellipse geometry equal to the selection rect |
| ShapeLaws.InSyncKeptBySetBlendMode | render-wasm/src/shapes.rs:188-190 | setting the blend mode keeps rect and ellipse geometry equal to the selection rect |
| ShapeLaws.InSyncKeptByListOps | render-wasm/src/shapes.rs:108-175 | child, fill and stroke operations keep rect and ellipse geometry equal to the selection rect, whether they succeed or fail |
| ShapeLaws.InSyncAfterKindChanges | render-wasm/src/shapes.rs:71-82 | moving the selection rect and setting an operator each leave geometry and selection rect in agreement whatever the shape was before; installing a path keeps an existing agreement |
| ShapeLaws.SetSelrectLastWins | render-wasm/src/shapes.rs:71-82 | moving the selection rect twice equals moving it once to the second place |
| ShapeLaws.AddChildrenInOrder | render-wasm/src/shapes.rs:108-110 | adding ids one by one appends them in order and changes nothing else |
| ShapeLaws.AddFillsInOrder | render-wasm/src/shapes.rs:120-122 | adding fills one by one stacks them in order and changes nothing else |
| ShapeLaws.ClearThenAddFill | render-wasm/src/shapes.rs:120-126 | after clearing, an added fill is the only fill |
| ShapeLaws.FillGradientStopsCompose | render-wasm/src/shapes.rs:128-141 | two successful stop additions equal one addition of both buffers; a failing first call fails exactly as the combined call would |
| ShapeLaws.StrokeFillThenStops | render-wasm/src/shapes.rs:151-171 | after repainting the last stroke, adding stops succeeds exactly when the new paint is a linear or radial gradient, and otherwise fails with the not-a-gradient error; on success that gradient keeps its variant and is extended by exactly the buffer's stops, and the other strokes are kept |
| ShapeLaws.SetBoolTypeTwice | render-wasm/src/shapes.rs:192-199 | setting the operator twice keeps the path, and the last operator set wins |
| ShapeLaws.PathAndBoolTypeOrder | render-wasm/src/shapes.rs:177-199 | setting the operator and then the path gives Bool(op, path); the other order keeps the path only if the shape was already Bool |
| ShapeLaws.TranslationOnlyIsIdentity | render-wasm/src/shapes.rs:201-214 | a path or bool shape whose transform only translates gets the identity path-space transform |
| ShapeLaws.PathTransformIgnoresTranslation | render-wasm/src/shapes.rs:207 | the path-space transform depends only on the transform's linear part |
| ShapeLaws.NewHasNoPathTransform | render-wasm/src/shapes.rs:50-65 | a new shape has no path-space transform; once given an operator it has the identity |

## Left out

- 32-bit floats: coordinates, rotation, opacity, offsets and matrix entries are reals. Rounding, NaN and infinities are not modelled.
- Geometry.Invert: treats only a zero determinant as singular. Skia's `invert` also refuses nearly-zero and non-finite determinants, so `ToPathTransform` may return a matrix where the renderer returns `None`.
- Shapes.ToPathTransform: takes its pivot from the centre of the selection rect. `bounds()` is defined in render-wasm/src/shapes/renderable.rs, which is not part of this model.
- Shapes.SetTransform: the layout of `Matrix::new` and `to_skia_matrix` is in render-wasm/src/shapes/matrix.rs, which is not part of this model. The six values are read as the affine map x' = a*x + c*y + e, y' = b*x + d*y + f.
- `Path::try_from` lives in render-wasm/src/shapes/paths.rs, which is not part of this model. `SetPathSegments` receives the decoder as a function parameter.
- `RawStopData::color`, `RawStopData::offset` and `Gradient::add_stop` live in render-wasm/src/shapes/fills.rs, which is not part of this model. A raw stop is a record of colour and offset, and adding a stop appends it.
- Paint.Gradient: holds only its stop list. The other gradient parameters in fills.rs are not touched by shapes.rs.
- Paint.Stroke: width and a style code stand in for the stroke parameters other than `fill`. render-wasm/src/shapes/strokes.rs is not part of this model.
- Shapes.New: `BlendMode::default()` is defined in the render module, which is not part of this model. `New` receives the default blend mode as a parameter.
- Uuid generation and the scene graph that owns children: ids are opaque 128-bit numbers.
- `kind()`, `fills()` and `strokes()` only return a copy or an iterator of a field. In the model they are the record's own fields.
- The `Renderable` implementation and the images module are outside the shape's attribute state.
