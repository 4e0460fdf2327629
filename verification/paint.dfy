/** Fill and stroke paint: solid colours and linear or radial gradients whose
    stops form an append-only list. The gradient and stroke records of the
    renderer carry further parameters; only the parts the shape touches are
    modelled. */
module Paint {
  import opened Results

  /** A packed 32-bit colour. */
  type Color = c: int | 0 <= c < 0x1_0000_0000

  /** One gradient stop: a colour at an offset along the gradient. */
  datatype Stop = Stop(color: Color, offset: real)

  /** A stop record as it arrives from the host buffer. */
  datatype RawStop = RawStop(rgba: Color, offset: real)

  /** The colour and offset read from a host stop record. */
  function StopOf(raw: RawStop): (s: Stop)
    ensures s.color == raw.rgba && s.offset == raw.offset
  {
    Stop(raw.rgba, raw.offset)
  }

  /** The stops a host buffer describes, one per record and in buffer order:
      the reference for what appending a buffer must add. */
  function StopsOf(buffer: seq<RawStop>): (stops: seq<Stop>)
    ensures |stops| == |buffer|
    ensures forall i :: 0 <= i < |buffer| ==> stops[i] == StopOf(buffer[i])
  {
    seq(|buffer|, i requires 0 <= i < |buffer| => StopOf(buffer[i]))
  }

  datatype Gradient = Gradient(stops: seq<Stop>)

  /** Adds one stop after the existing ones; no sorting and no check of the
      offset. */
  function AddStop(g: Gradient, color: Color, offset: real): (r: Gradient)
    ensures |r.stops| == |g.stops| + 1
    ensures r.stops[..|g.stops|] == g.stops
    ensures r.stops[|g.stops|] == Stop(color, offset)
  {
    Gradient(g.stops + [Stop(color, offset)])
  }

  /** Adds the stops of a buffer one record at a time, in buffer order. */
  function AddStops(g: Gradient, buffer: seq<RawStop>): (r: Gradient)
    ensures r.stops == g.stops + StopsOf(buffer)
    decreases |buffer|
  {
    if |buffer| == 0 then g
    else
      var g' := AddStop(g, buffer[0].rgba, buffer[0].offset);
      var r := AddStops(g', buffer[1..]);
      assert g'.stops == g.stops + [StopOf(buffer[0])];
      StopsOfFirst(buffer);
      SeqAssoc(g.stops, [StopOf(buffer[0])], StopsOf(buffer[1..]));
      r
  }

  /** The stops of a non-empty buffer are its first record's stop followed by
      the stops of the rest. */
  lemma StopsOfFirst(buffer: seq<RawStop>)
    requires |buffer| > 0
    ensures StopsOf(buffer) == [StopOf(buffer[0])] + StopsOf(buffer[1..])
  {
    var rest := StopsOf(buffer[1..]);
    forall i | 0 <= i < |buffer|
      ensures StopsOf(buffer)[i] == ([StopOf(buffer[0])] + rest)[i]
    {
      if i > 0 { assert buffer[1..][i - 1] == buffer[i]; }
    }
  }

  /** Reading two buffers one after the other gives the stops of the first
      followed by the stops of the second. */
  lemma StopsOfAppend(b1: seq<RawStop>, b2: seq<RawStop>)
    ensures StopsOf(b1 + b2) == StopsOf(b1) + StopsOf(b2)
  {
    var l, r := StopsOf(b1 + b2), StopsOf(b1) + StopsOf(b2);
    forall i | 0 <= i < |b1| + |b2| ensures l[i] == r[i] {
      if i < |b1| { assert (b1 + b2)[i] == b1[i]; }
      else { assert (b1 + b2)[i] == b2[i - |b1|]; }
    }
  }

  /** Adding two buffers of stops in two calls is the same as adding their
      concatenation in one. */
  lemma FillWithStopsAppend(f: Fill, b1: seq<RawStop>, b2: seq<RawStop>)
    requires IsGradient(f)
    ensures FillWithStops(FillWithStops(f, b1).value, b2) == FillWithStops(f, b1 + b2)
  {
    AddStopsAppend(f.gradient, b1, b2);
    match f
    case LinearGradient(g) =>
    case RadialGradient(g) =>
  }

  lemma AddStopsAppend(g: Gradient, b1: seq<RawStop>, b2: seq<RawStop>)
    ensures AddStops(AddStops(g, b1), b2) == AddStops(g, b1 + b2)
  {
    var twice := AddStops(AddStops(g, b1), b2).stops;
    var once := AddStops(g, b1 + b2).stops;
    assert twice == once by {
      StopsOfAppend(b1, b2);
      SeqAssoc(g.stops, StopsOf(b1), StopsOf(b2));
    }
  }

  lemma SeqAssoc<T>(a: seq<T>, b: seq<T>, c: seq<T>)
    ensures (a + b) + c == a + (b + c)
  {
  }

  datatype Fill =
    | Solid(color: Color)
    | LinearGradient(gradient: Gradient)
    | RadialGradient(gradient: Gradient)

  predicate IsGradient(f: Fill)
  {
    f.LinearGradient? || f.RadialGradient?
  }

  /** Adds stops to the gradient of a gradient fill, keeping its variant;
      `None` for a solid fill. */
  function FillWithStops(f: Fill, buffer: seq<RawStop>): (r: Option<Fill>)
    ensures r.None? <==> f.Solid?
    ensures r.Some? ==> IsGradient(r.value)
                        && r.value.LinearGradient? == f.LinearGradient?
                        && r.value.gradient.stops == f.gradient.stops + StopsOf(buffer)
  {
    match f
    case Solid(_) => None
    case LinearGradient(g) => Some(LinearGradient(AddStops(g, buffer)))
    case RadialGradient(g) => Some(RadialGradient(AddStops(g, buffer)))
  }

  /** A stroke: its own geometry parameters (width and a style code standing
      for cap, join and alignment) and the fill that paints it. */
  datatype Stroke = Stroke(width: real, style: nat, fill: Fill)
}
