/** Path geometry: an ordered list of drawing commands. The decoder from the
    host's flat segment buffer is not part of this model; shapes receive it as
    a fallible function. */
module Paths {
  import opened Results

  datatype Segment =
    | MoveTo(x: real, y: real)
    | LineTo(x: real, y: real)
    | CurveTo(c1x: real, c1y: real, c2x: real, c2y: real, x: real, y: real)
    | Close

  /** Paths are compared structurally: equal exactly when their command lists
      are equal. */
  datatype Path = Path(segments: seq<Segment>)

  /** The default path has no commands. */
  const EmptyPath := Path([])

  /** One fixed-size segment record of the host buffer, as raw words. */
  datatype RawPathData = RawPathData(words: seq<int>)

  /** A path decoder: a malformed buffer yields an error message and no path. */
  type PathParser = seq<RawPathData> -> Result<Path, string>
}
