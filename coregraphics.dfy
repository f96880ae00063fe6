/**
 * The CoreGraphics backend of piet (piet-coregraphics/src/lib.rs): how the
 * abstract render context drives a native `CGContext`.
 *
 * The native context is modelled as a class that records, in order, every
 * call made on it (`CGContext.log`); nothing of its rendering is modelled.
 * What is proved is the translation: path elements to path-building calls
 * (with quadratic segments raised to cubics), stroke styles to stroke
 * settings with their defaults, and packed colors to channel fractions.
 */
module CoreGraphics {
  import opened PietTypes
  import opened Kurbo

  // ---------------------------------------------------------------------
  // Colors

  /** A `piet::Color` as `Color::as_rgba_u32` gives it: red in bits 31-24, then green, blue, alpha. */
  type Color = u32

  /** The four fractional channels handed to a native color setter. */
  datatype Rgba = Rgba(red: real, green: real, blue: real, alpha: real)

  /** `byte_to_frac`: the low byte of `byte` as a fraction of 255. */
  function ByteToFrac(byte: u32): (r: real)
    ensures 0.0 <= r <= 1.0
  {
    // `byte & 255` on a non-negative word is its remainder modulo 256
    ((byte % 256) as int as real) * (1.0 / 255.0)
  }

  /** The byte a channel fraction stands for: the inverse of `ByteToFrac` on bytes. */
  function FracToByte(f: real): int
  {
    (f * 255.0).Floor
  }

  lemma ByteToFracRoundTrip(byte: u32)
    ensures ByteToFrac(byte) * 255.0 == (byte as int % 256) as real
    ensures FracToByte(ByteToFrac(byte)) == byte as int % 256
  {
  }

  /** The channels a solid color sets: `byte_to_frac(rgba >> 24)`, `>> 16`, `>> 8`, `>> 0`. */
  function Channels(rgba: Color): (c: Rgba)
    ensures 0.0 <= c.red <= 1.0 && 0.0 <= c.green <= 1.0
    ensures 0.0 <= c.blue <= 1.0 && 0.0 <= c.alpha <= 1.0
  {
    Rgba(ByteToFrac(rgba / 0x100_0000), ByteToFrac(rgba / 0x1_0000), ByteToFrac(rgba / 0x100), ByteToFrac(rgba))
  }

  /** The packed word with bytes `r`, `g`, `b`, `a` from the most significant down. */
  function Pack(r: u8, g: u8, b: u8, a: u8): Color
  {
    (r as int * 0x100_0000 + g as int * 0x1_0000 + b as int * 0x100 + a as int) as u32
  }

  lemma PackDigits(r: int, g: int, b: int, a: int)
    requires 0 <= r < 256 && 0 <= g < 256 && 0 <= b < 256 && 0 <= a < 256
    ensures var v := r * 0x100_0000 + g * 0x1_0000 + b * 0x100 + a;
      v / 0x100_0000 == r && (v / 0x1_0000) % 256 == g && (v / 0x100) % 256 == b && v % 256 == a
  {
    var v := r * 0x100_0000 + g * 0x1_0000 + b * 0x100 + a;
    var low := g * 0x1_0000 + b * 0x100 + a;
    assert 0 <= low < 0x100_0000;
    assert v == r * 0x100_0000 + low;
    assert (v / 0x1_0000) == r * 256 + g by {
      assert v == (r * 256 + g) * 0x1_0000 + (b * 0x100 + a);
    }
    assert (v / 0x100) == (r * 0x1_0000 + g * 256 + b) by {
      assert v == (r * 0x1_0000 + g * 256 + b) * 0x100 + a;
    }
  }

  /** Channel order is red, green, blue, alpha, taken from the high byte down. */
  lemma ChannelsOfPack(r: u8, g: u8, b: u8, a: u8)
    ensures Channels(Pack(r, g, b, a))
         == Rgba(r as int as real / 255.0, g as int as real / 255.0, b as int as real / 255.0, a as int as real / 255.0)
  {
    PackDigits(r as int, g as int, b as int, a as int);
  }

  /** A word is the sum of its four bytes, weighted from the most significant down. */
  lemma ByteDigits(x: int)
    requires 0 <= x < 0x1_0000_0000
    ensures x == (x / 0x100_0000) * 0x100_0000 + ((x / 0x1_0000) % 256) * 0x1_0000
                 + ((x / 0x100) % 256) * 0x100 + x % 256
  {
    var q1 := x / 0x100;
    var q2 := q1 / 0x100;
    var q3 := q2 / 0x100;
    assert x == q1 * 0x100 + x % 256;
    assert q1 == q2 * 0x100 + q1 % 256;
    assert q2 == q3 * 0x100 + q2 % 256;
    assert q2 == x / 0x1_0000;
    assert q3 == x / 0x100_0000;
  }

  /** Two words with the same four bytes are equal. */
  lemma DigitsDetermine(x1: int, x2: int)
    requires 0 <= x1 < 0x1_0000_0000 && 0 <= x2 < 0x1_0000_0000
    requires (x1 / 0x100_0000) % 256 == (x2 / 0x100_0000) % 256
    requires (x1 / 0x1_0000) % 256 == (x2 / 0x1_0000) % 256
    requires (x1 / 0x100) % 256 == (x2 / 0x100) % 256 && x1 % 256 == x2 % 256
    ensures x1 == x2
  {
    ByteDigits(x1);
    ByteDigits(x2);
    assert x1 / 0x100_0000 < 256 && x2 / 0x100_0000 < 256;
  }

  /** Equal fractions come from equal low bytes. */
  lemma ByteToFracInjective(a: u32, b: u32)
    requires ByteToFrac(a) == ByteToFrac(b)
    ensures a % 256 == b % 256
  {
    ByteToFracRoundTrip(a);
    ByteToFracRoundTrip(b);
  }

  /** The four channels determine the packed color: no two colors set the same fractions. */
  lemma ChannelsInjective(c1: Color, c2: Color)
    requires Channels(c1) == Channels(c2)
    ensures c1 == c2
  {
    ByteToFracInjective(c1 / 0x100_0000, c2 / 0x100_0000);
    ByteToFracInjective(c1 / 0x1_0000, c2 / 0x1_0000);
    ByteToFracInjective(c1 / 0x100, c2 / 0x100);
    ByteToFracInjective(c1, c2);
    DigitsDetermine(c1 as int, c2 as int);
  }

  // ---------------------------------------------------------------------
  // Brushes

  /** The backend's brush: a packed solid color, or a gradient, on which `set_fill_brush` and `set_stroke_brush` panic. */
  datatype Brush = Solid(rgba: Color) | Gradient

  /** `solid_brush`: the brush that paints `color`. */
  function SolidBrush(color: Color): (b: Brush)
    ensures b.Solid? && b.rgba == color
  {
    Solid(color)
  }

  /**
   * `IntoBrush::make_brush` for `Brush`: the brush itself. The bounding-box
   * thunk is never called, so the result cannot depend on it.
   */
  function MakeBrush(brush: Brush, bbox: () -> Rect): (r: Brush)
    ensures r == brush
  {
    brush
  }

  lemma MakeBrushIgnoresBoundingBox(brush: Brush, bbox1: () -> Rect, bbox2: () -> Rect)
    ensures MakeBrush(brush, bbox1) == MakeBrush(brush, bbox2)
  {
  }

  // ---------------------------------------------------------------------
  // Stroke styles

  datatype LineJoin = Miter | Round | Bevel

  datatype LineCap = Butt | Round | Square

  datatype CGLineJoin = CGLineJoinMiter | CGLineJoinRound | CGLineJoinBevel

  datatype CGLineCap = CGLineCapButt | CGLineCapRound | CGLineCapSquare

  /** The piet join a native join stands for; the inverse of `ConvertLineJoin`. */
  function JoinOfNative(n: CGLineJoin): LineJoin
  {
    match n
    case CGLineJoinMiter => Miter
    case CGLineJoinRound => LineJoin.Round
    case CGLineJoinBevel => Bevel
  }

  /** `convert_line_join`: total, and injective because `JoinOfNative` undoes it. */
  function ConvertLineJoin(j: LineJoin): (n: CGLineJoin)
    ensures JoinOfNative(n) == j
  {
    match j
    case Miter => CGLineJoinMiter
    case Round => CGLineJoinRound
    case Bevel => CGLineJoinBevel
  }

  /** The piet cap a native cap stands for; the inverse of `ConvertLineCap`. */
  function CapOfNative(n: CGLineCap): LineCap
  {
    match n
    case CGLineCapButt => Butt
    case CGLineCapRound => LineCap.Round
    case CGLineCapSquare => Square
  }

  /** `convert_line_cap`: total, and injective because `CapOfNative` undoes it. */
  function ConvertLineCap(c: LineCap): (n: CGLineCap)
    ensures CapOfNative(n) == c
  {
    match c
    case Butt => CGLineCapButt
    case Round => CGLineCapRound
    case Square => CGLineCapSquare
  }

  /** A dash pattern: the lengths of the dashes and gaps, and the phase offset. */
  datatype Dash = Dash(dashes: seq<real>, offset: real)

  /** `piet::StrokeStyle`: each field absent means "use the default". */
  datatype StrokeStyle = StrokeStyle(
    lineJoin: Option<LineJoin>,
    lineCap: Option<LineCap>,
    dash: Option<Dash>,
    miterLimit: Option<real>)

  /** The complete native stroke state `set_stroke` establishes. */
  datatype StrokeState = StrokeState(
    width: real,
    join: CGLineJoin,
    cap: CGLineCap,
    miterLimit: real,
    dashPhase: real,
    dashLengths: seq<real>)

  /** Miter limit used when the style does not give one. */
  const DefaultMiterLimit: real := 10.0

  /**
   * The stroke state `set_stroke(width, style)` sets: every field the style
   * leaves absent (or no style at all) takes its default, every field it
   * gives is passed through unchanged.
   */
  function StrokeSettings(width: real, style: Option<StrokeStyle>): (s: StrokeState)
    ensures s.width == width
    ensures (style.None? || style.value.lineJoin.None?) ==> s.join == CGLineJoinMiter
    ensures style.Some? && style.value.lineJoin.Some? ==> JoinOfNative(s.join) == style.value.lineJoin.value
    ensures (style.None? || style.value.lineCap.None?) ==> s.cap == CGLineCapButt
    ensures style.Some? && style.value.lineCap.Some? ==> CapOfNative(s.cap) == style.value.lineCap.value
    ensures (style.None? || style.value.miterLimit.None?) ==> s.miterLimit == 10.0
    ensures style.Some? && style.value.miterLimit.Some? ==> s.miterLimit == style.value.miterLimit.value
    ensures (style.None? || style.value.dash.None?) ==> s.dashPhase == 0.0 && s.dashLengths == []
    ensures style.Some? && style.value.dash.Some? ==>
      s.dashPhase == style.value.dash.value.offset && s.dashLengths == style.value.dash.value.dashes
  {
    var join := if style.Some? && style.value.lineJoin.Some? then style.value.lineJoin.value else Miter;
    var cap := if style.Some? && style.value.lineCap.Some? then style.value.lineCap.value else Butt;
    var miter := if style.Some? && style.value.miterLimit.Some? then style.value.miterLimit.value else DefaultMiterLimit;
    var dash := if style.Some? && style.value.dash.Some? then style.value.dash.value else Dash([], 0.0);
    StrokeState(width, ConvertLineJoin(join), ConvertLineCap(cap), miter, dash.offset, dash.dashes)
  }

  // ---------------------------------------------------------------------
  // The native context

  /** One call on the native `CGContext`, with its arguments. */
  datatype CGCommand =
    | BeginPath
    | MoveToPoint(x: real, y: real)
    | AddLineToPoint(x: real, y: real)
    | AddCurveToPoint(cp1x: real, cp1y: real, cp2x: real, cp2y: real, x: real, y: real)
    | ClosePath
    | SetRgbFillColor(fill: Rgba)
    | SetRgbStrokeColor(stroke: Rgba)
    | FillRect(rect: Rect)
    | FillPath
    | EoFillPath
    | Clip
    | StrokePath
    | SetLineWidth(width: real)
    | SetLineJoin(join: CGLineJoin)
    | SetLineCap(cap: CGLineCap)
    | SetMiterLimit(limit: real)
    | SetLineDash(phase: real, lengths: seq<real>)
    | SaveGState
    | RestoreGState

  /** The calls `set_stroke` makes for a given stroke state, in order. */
  function StrokeCommands(s: StrokeState): (cmds: seq<CGCommand>)
    ensures |cmds| == 5 && cmds[0] == SetLineWidth(s.width) && cmds[4] == SetLineDash(s.dashPhase, s.dashLengths)
  {
    [SetLineWidth(s.width), SetLineJoin(s.join), SetLineCap(s.cap),
     SetMiterLimit(s.miterLimit), SetLineDash(s.dashPhase, s.dashLengths)]
  }

  /**
   * The native drawing context, seen only through the calls made on it.
   * `clipBox` is what the engine reports as the clip bounding box; how
   * clipping and save/restore change it is the engine's business and is not
   * modelled.
   */
  class CGContext {
    var log: seq<CGCommand>
    var clipBox: Rect

    constructor (clipBox: Rect)
      ensures log == [] && this.clipBox == clipBox
    {
      log := [];
      this.clipBox := clipBox;
    }

    function ClipBoundingBox(): Rect
      reads this
    {
      clipBox
    }

    method Emit(cmd: CGCommand)
      modifies this`log
      ensures log == old(log) + [cmd]
    {
      log := log + [cmd];
    }
  }

  // ---------------------------------------------------------------------
  // Path conversion

  /** The point `set_path`'s `last` holds after element `el`, if it held `last` before. */
  function NextLast(el: PathEl, last: Point): Point
  {
    match el
    case MoveTo(p) => p
    case LineTo(p) => p
    case QuadTo(_, p2) => p2
    case CurveTo(_, _, p3) => p3
    case ClosePath => last
  }

  /** The native call `set_path` makes for element `el` when `last` is the previous end point. */
  function ElementCommand(el: PathEl, last: Point): CGCommand
  {
    match el
    case MoveTo(p) => MoveToPoint(p.x, p.y)
    case LineTo(p) => AddLineToPoint(p.x, p.y)
    case QuadTo(p1, p2) =>
      var c := Raise(QuadBez(last, p1, p2));
      AddCurveToPoint(c.p1.x, c.p1.y, c.p2.x, c.p2.y, p2.x, p2.y)
    case CurveTo(p1, p2, p3) => AddCurveToPoint(p1.x, p1.y, p2.x, p2.y, p3.x, p3.y)
    case ClosePath => CGCommand.ClosePath
  }

  /** `last` after `set_path` has walked `els`, starting from the origin. */
  function LastAfter(els: seq<PathEl>): Point
  {
    if els == [] then Origin
    else NextLast(els[|els| - 1], LastAfter(els[..|els| - 1]))
  }

  /** The calls `set_path` makes for `els`, after its leading `begin_path`. */
  function PathCommands(els: seq<PathEl>): seq<CGCommand>
  {
    if els == [] then []
    else
      var init := els[..|els| - 1];
      PathCommands(init) + [ElementCommand(els[|els| - 1], LastAfter(init))]
  }

  /** One native call per path element. */
  lemma {:induction false} PathCommandsLength(els: seq<PathEl>)
    ensures |PathCommands(els)| == |els|
  {
    if els != [] {
      PathCommandsLength(els[..|els| - 1]);
    }
  }

  /** The `i`-th call is the `i`-th element's, computed from the end point of the elements before it. */
  lemma {:induction false} PathCommandsAt(els: seq<PathEl>, i: nat)
    requires i < |els|
    ensures |PathCommands(els)| == |els|
    ensures PathCommands(els)[i] == ElementCommand(els[i], LastAfter(els[..i]))
  {
    var init := els[..|els| - 1];
    PathCommandsLength(els);
    PathCommandsLength(init);
    if i < |els| - 1 {
      PathCommandsAt(init, i);
      assert init[..i] == els[..i];
    } else {
      assert init == els[..i];
    }
  }

  /** With no element that sets a point (only `ClosePath`s), `last` is still the origin. */
  lemma {:induction false} LastAfterOnlyCloses(els: seq<PathEl>)
    requires forall j :: 0 <= j < |els| ==> els[j].ClosePath?
    ensures LastAfter(els) == Origin
  {
    if els != [] {
      var init := els[..|els| - 1];
      assert forall j :: 0 <= j < |init| ==> init[j] == els[j];
      LastAfterOnlyCloses(init);
    }
  }

  /**
   * `last` is the end point of the latest element that has one: a later
   * `ClosePath` leaves it unchanged.
   */
  lemma {:induction false} LastAfterLatest(els: seq<PathEl>, j: nat)
    requires j < |els| && !els[j].ClosePath?
    requires forall k :: j < k < |els| ==> els[k].ClosePath?
    ensures LastAfter(els) == NextLast(els[j], Origin)
  {
    var init := els[..|els| - 1];
    if j < |els| - 1 {
      assert forall k :: j < k < |init| ==> init[k] == els[k];
      LastAfterLatest(init, j);
    }
  }

  /**
   * A quadratic right after a `ClosePath` is raised from the end point of the
   * segment before the close, not from the start of the closed subpath.
   */
  lemma QuadAfterCloseRaisedFromLastEnd(a: Point, b: Point, p1: Point, p2: Point)
    ensures var els := [MoveTo(a), LineTo(b), PathEl.ClosePath, QuadTo(p1, p2)];
      |PathCommands(els)| == 4 && PathCommands(els)[3] == ElementCommand(QuadTo(p1, p2), b)
  {
    var els := [MoveTo(a), LineTo(b), PathEl.ClosePath, QuadTo(p1, p2)];
    PathCommandsAt(els, 3);
    LastAfterLatest(els[..3], 1);
  }

  /**
   * What the call for a `QuadTo` draws: a cubic from `last` that ends at the
   * quadratic's end point and traces the quadratic `(last, p1, p2)` exactly.
   */
  lemma QuadCommandTracesQuad(last: Point, p1: Point, p2: Point, t: real)
    ensures var cmd := ElementCommand(QuadTo(p1, p2), last);
      cmd.AddCurveToPoint? && Point(cmd.x, cmd.y) == p2 &&
      CubicEval(CubicBez(last, Point(cmd.cp1x, cmd.cp1y), Point(cmd.cp2x, cmd.cp2y), Point(cmd.x, cmd.y)), t)
        == QuadEval(QuadBez(last, p1, p2), t)
  {
    RaiseExact(QuadBez(last, p1, p2), t);
  }

  // ---------------------------------------------------------------------
  // The render context

  /** `CoreGraphicsContext`: piet's render context bound to one native context. */
  class CoreGraphicsContext {
    const ctx: CGContext

    constructor (ctx: CGContext)
      ensures this.ctx == ctx
    {
      this.ctx := ctx;
    }

    /** `set_path`: begin a path, then one native call per element, raising quadratics from `last`. */
    method SetPath(path: seq<PathEl>)
      modifies ctx`log
      ensures ctx.log == old(ctx.log) + [BeginPath] + PathCommands(path)
    {
      ctx.Emit(BeginPath);
      var last := Origin;
      for i := 0 to |path|
        invariant ctx.log == old(ctx.log) + [BeginPath] + PathCommands(path[..i])
        invariant last == LastAfter(path[..i])
      {
        assert path[..i + 1][..i] == path[..i];
        match path[i]
        case MoveTo(p) =>
          ctx.Emit(MoveToPoint(p.x, p.y));
          last := p;
        case LineTo(p) =>
          ctx.Emit(AddLineToPoint(p.x, p.y));
          last := p;
        case QuadTo(p1, p2) =>
          var c := Raise(QuadBez(last, p1, p2));
          ctx.Emit(AddCurveToPoint(c.p1.x, c.p1.y, c.p2.x, c.p2.y, p2.x, p2.y));
          last := p2;
        case CurveTo(p1, p2, p3) =>
          ctx.Emit(AddCurveToPoint(p1.x, p1.y, p2.x, p2.y, p3.x, p3.y));
          last := p3;
        case ClosePath =>
          ctx.Emit(CGCommand.ClosePath);
      }
      assert path[..|path|] == path;
    }

    /** `set_stroke`: width, join, cap, miter limit and dash, in that order. */
    method SetStroke(width: real, style: Option<StrokeStyle>)
      modifies ctx`log
      ensures ctx.log == old(ctx.log) + StrokeCommands(StrokeSettings(width, style))
    {
      ctx.Emit(SetLineWidth(width));
      var lineJoin := if style.Some? && style.value.lineJoin.Some? then style.value.lineJoin.value else Miter;
      ctx.Emit(SetLineJoin(ConvertLineJoin(lineJoin)));
      var lineCap := if style.Some? && style.value.lineCap.Some? then style.value.lineCap.value else Butt;
      ctx.Emit(SetLineCap(ConvertLineCap(lineCap)));
      var miterLimit := if style.Some? && style.value.miterLimit.Some? then style.value.miterLimit.value else 10.0;
      ctx.Emit(SetMiterLimit(miterLimit));
      if style.Some? && style.value.dash.Some? {
        var Dash(dashes, offset) := style.value.dash.value;
        ctx.Emit(SetLineDash(offset, dashes));
      } else {
        ctx.Emit(SetLineDash(0.0, []));
      }
    }

    /** `set_fill_brush`: the fill color becomes the brush's channels. */
    method SetFillBrush(brush: Brush)
      requires brush.Solid?
      modifies ctx`log
      ensures ctx.log == old(ctx.log) + [SetRgbFillColor(Channels(brush.rgba))]
    {
      var rgba := brush.rgba;
      ctx.Emit(SetRgbFillColor(Rgba(ByteToFrac(rgba / 0x100_0000), ByteToFrac(rgba / 0x1_0000),
                                    ByteToFrac(rgba / 0x100), ByteToFrac(rgba))));
    }

    /** `set_stroke_brush`: the stroke color becomes the brush's channels. */
    method SetStrokeBrush(brush: Brush)
      requires brush.Solid?
      modifies ctx`log
      ensures ctx.log == old(ctx.log) + [SetRgbStrokeColor(Channels(brush.rgba))]
    {
      var rgba := brush.rgba;
      ctx.Emit(SetRgbStrokeColor(Rgba(ByteToFrac(rgba / 0x100_0000), ByteToFrac(rgba / 0x1_0000),
                                      ByteToFrac(rgba / 0x100), ByteToFrac(rgba))));
    }

    /** `clear`: fill the clip bounding box with `color`. */
    method Clear(color: Color)
      modifies ctx`log
      ensures ctx.log == old(ctx.log) + [SetRgbFillColor(Channels(color)), FillRect(ctx.clipBox)]
    {
      ctx.Emit(SetRgbFillColor(Channels(color)));
      ctx.Emit(FillRect(ctx.ClipBoundingBox()));
    }

    /** `fill`: nonzero-winding fill of `shape`'s path with `brush`. */
    method Fill(shape: Shape, brush: Brush)
      requires brush.Solid?
      modifies ctx`log
      ensures ctx.log == old(ctx.log) + [BeginPath] + PathCommands(shape.elements)
                         + [SetRgbFillColor(Channels(brush.rgba)), FillPath]
    {
      var b := MakeBrush(brush, () => shape.boundingBox);
      SetPath(shape.elements);
      SetFillBrush(b);
      ctx.Emit(FillPath);
    }

    /** `fill_even_odd`: as `Fill`, with the even-odd rule. */
    method FillEvenOdd(shape: Shape, brush: Brush)
      requires brush.Solid?
      modifies ctx`log
      ensures ctx.log == old(ctx.log) + [BeginPath] + PathCommands(shape.elements)
                         + [SetRgbFillColor(Channels(brush.rgba)), EoFillPath]
    {
      var b := MakeBrush(brush, () => shape.boundingBox);
      SetPath(shape.elements);
      SetFillBrush(b);
      ctx.Emit(EoFillPath);
    }

    /** `clip`: intersect the clip region with `shape`. */
    method Clip(shape: Shape)
      modifies ctx
      ensures ctx.log == old(ctx.log) + [BeginPath] + PathCommands(shape.elements) + [CGCommand.Clip]
    {
      SetPath(shape.elements);
      ctx.Emit(CGCommand.Clip);
    }

    /** `stroke`: stroke `shape` with `brush` at `width`, every other stroke setting at its default. */
    method Stroke(shape: Shape, brush: Brush, width: real)
      requires brush.Solid?
      modifies ctx`log
      ensures ctx.log == old(ctx.log) + [BeginPath] + PathCommands(shape.elements)
                         + StrokeCommands(StrokeSettings(width, None))
                         + [SetRgbStrokeColor(Channels(brush.rgba)), StrokePath]
    {
      var b := MakeBrush(brush, () => shape.boundingBox);
      SetPath(shape.elements);
      SetStroke(width, None);
      SetStrokeBrush(b);
      ctx.Emit(StrokePath);
    }

    /** `stroke_styled`: as `Stroke`, with the settings `style` gives. */
    method StrokeStyled(shape: Shape, brush: Brush, width: real, style: StrokeStyle)
      requires brush.Solid?
      modifies ctx`log
      ensures ctx.log == old(ctx.log) + [BeginPath] + PathCommands(shape.elements)
                         + StrokeCommands(StrokeSettings(width, Some(style)))
                         + [SetRgbStrokeColor(Channels(brush.rgba)), StrokePath]
    {
      var b := MakeBrush(brush, () => shape.boundingBox);
      SetPath(shape.elements);
      SetStroke(width, Some(style));
      SetStrokeBrush(b);
      ctx.Emit(StrokePath);
    }

    /** `save`: push the native graphics state; always succeeds. */
    method Save() returns (r: Result<()>)
      modifies ctx`log
      ensures r == Ok(()) && ctx.log == old(ctx.log) + [SaveGState]
    {
      ctx.Emit(SaveGState);
      r := Ok(());
    }

    /** `restore`: pop the native graphics state; always reports success. */
    method Restore() returns (r: Result<()>)
      modifies ctx
      ensures r == Ok(()) && ctx.log == old(ctx.log) + [RestoreGState]
    {
      ctx.Emit(RestoreGState);
      r := Ok(());
    }

    /** `finish`: nothing to flush; always succeeds and makes no native call. */
    method Finish() returns (r: Result<()>)
      ensures r == Ok(())
    {
      r := Ok(());
    }

    /** `current_transform`: this backend cannot report it and answers the identity. */
    function CurrentTransform(): (t: Affine)
      ensures forall p :: Apply(t, p) == p
    {
      DefaultAffine()
    }
  }
}
