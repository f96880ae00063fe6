# piet backend adaptation, modelled in Dafny

piet is a 2D drawing API with several native backends. Two of its backends turn
piet's abstract drawing calls and data into a native engine's own form, and
this project models that adaptation logic:

* **The CoreGraphics render context** (`piet-coregraphics/src/lib.rs`):
  * Path conversion (`set_path`). It emits one native path call per `kurbo::PathEl` and tracks the last end point. It raises each quadratic segment to a cubic starting at that point.
  * Stroke-state translation (`set_stroke`, `convert_line_join`, `convert_line_cap`). Absent style fields take their defaults here.
  * Color unpacking (`byte_to_frac` and the `>> 24 / >> 16 / >> 8 / >> 0` channel split in `clear`, `set_fill_brush` and `set_stroke_brush`).
  * The brush operations (`solid_brush`, `make_brush`).
  * The drawing entry points that combine all of these (`fill`, `fill_even_odd`, `clip`, `stroke`, `stroke_styled`, `save`, `restore`, `finish`, `current_transform`).
* **The Cairo bitmap target** (`piet-common/src/cairo_back.rs`):
  * `get_raw_pixels` refuses every format but `RgbaPremul`. It then copies Cairo's row-padded buffer (B, G, R, A bytes on a little-endian host) into a tightly packed R, G, B, A buffer.
  * `into_raw_pixels`.
  * The `save_to_file` stub built without PNG support.

The native `CGContext` is a class whose observable state is the log of calls made on it and the clip bounding box it reports. Every operation that calls the native context is a method that appends those calls to the log, and its `ensures` gives the new log exactly, in terms of specification functions:

* `PathCommands` for `set_path`.
* `StrokeSettings` and `StrokeCommands` for `set_stroke`.
* `Channels` for colors.

Lemmas then prove what those functions promise. Pixel extraction writes a fresh array under loop invariants. It is proved equal to the specification function `RgbaPixels`, whose layout, bounds and padding-independence are proved as lemmas. Coordinates and channel fractions are exact reals.

Files:

* `piet_types.dfy` (module `PietTypes`): fixed-width integers, `Option`, `Result`, error kinds and image formats.
* `kurbo.dfy` (module `Kurbo`): points, path elements, Bézier segments, degree elevation, rectangles and affine transforms.
* `coregraphics.dfy` (module `CoreGraphics`): the CoreGraphics backend.
* `cairo_back.dfy` (module `CairoBack`): the Cairo bitmap target.

## Model

| member | source | states |
|---|---|---|
| CoreGraphics.ByteToFrac | piet-coregraphics/src/lib.rs:406-408 | `byte_to_frac` maps any word to a fraction in [0, 1] |
| CoreGraphics.ByteToFracRoundTrip | piet-coregraphics/src/lib.rs:406-408 | the fraction is exactly the low byte over 255, and scaling back by 255 and taking the floor recovers `byte & 255` |
| CoreGraphics.ByteToFracInjective | piet-coregraphics/src/lib.rs:406-408 | two words give the same fraction only when their low bytes agree |
| CoreGraphics.Channels | piet-coregraphics/src/lib.rs:99-105 | the four channels unpacked from a packed color each lie in [0, 1] |
| CoreGraphics.ChannelsOfPack | piet-coregraphics/src/lib.rs:326-347 | for the word with bytes r, g, b, a (high to low), the channels are r/255, g/255, b/255, a/255 in red, green, blue, alpha order |
| CoreGraphics.ChannelsInjective | piet-coregraphics/src/lib.rs:99-105 | no two packed colors produce the same four channel values: the `>> 24/16/8/0` split loses nothing |
| CoreGraphics.PackDigits | piet-coregraphics/src/lib.rs:101-104 | shifting by 24, 16, 8 and 0 and masking to a byte yields the red, green, blue and alpha bytes of a packed word |
| CoreGraphics.ByteDigits | piet-coregraphics/src/lib.rs:101-104 | a 32-bit word is the weighted sum of the four bytes the shifts extract |
| CoreGraphics.DigitsDetermine | piet-coregraphics/src/lib.rs:101-104 | two 32-bit words that agree on the four extracted bytes are equal |
| CoreGraphics.SolidBrush | piet-coregraphics/src/lib.rs:109-111 | `solid_brush` yields a solid brush storing exactly the given packed color |
| CoreGraphics.MakeBrush | piet-coregraphics/src/lib.rs:295-302 | `make_brush` returns the brush itself |
| CoreGraphics.MakeBrushIgnoresBoundingBox | piet-coregraphics/src/lib.rs:295-302 | the result does not depend on the bounding-box thunk, which is never called |
| CoreGraphics.ConvertLineJoin | piet-coregraphics/src/lib.rs:305-311 | `convert_line_join` is total and injective: `JoinOfNative` undoes it |
| CoreGraphics.ConvertLineCap | piet-coregraphics/src/lib.rs:313-319 | `convert_line_cap` is total and injective: `CapOfNative` undoes it |
| CoreGraphics.StrokeSettings | piet-coregraphics/src/lib.rs:351-370 | with no style, or a style field absent: join Miter, cap Butt, miter limit 10.0, dash phase 0 with no lengths; a field present in the style is passed through unchanged, the dash as (offset, dashes); the width is passed through |
| CoreGraphics.StrokeCommands | piet-coregraphics/src/lib.rs:352-370 | `set_stroke` makes exactly five native calls, the first setting the width and the last the dash |
| CoreGraphics.CoreGraphicsContext.SetStroke | piet-coregraphics/src/lib.rs:351-371 | the log gains exactly the five calls for `StrokeSettings(width, style)`, in order |
| CoreGraphics.CGContext.Emit | piet-coregraphics/src/lib.rs:100-106 | a native call appends itself to the log and changes nothing else |
| CoreGraphics.PathCommandsLength | piet-coregraphics/src/lib.rs:378-402 | `set_path` makes one native call per path element |
| CoreGraphics.PathCommandsAt | piet-coregraphics/src/lib.rs:379-401 | the i-th call is the i-th element's: move-to and line-to with the same point, curve-to with the cubic's points verbatim, close-path for `ClosePath`, and for a quadratic the raised cubic from the end point of the elements before it |
| CoreGraphics.LastAfterOnlyCloses | piet-coregraphics/src/lib.rs:377 | `last` starts at the origin and stays there until an element with an end point: a quadratic before any move-to is raised from the origin |
| CoreGraphics.LastAfterLatest | piet-coregraphics/src/lib.rs:380-400 | `last` is the end point of the latest element that has one; `ClosePath` leaves it unchanged |
| CoreGraphics.QuadAfterCloseRaisedFromLastEnd | piet-coregraphics/src/lib.rs:384-400 | after move-to a, line-to b, close-path, a quadratic is raised from b, the end point before the close, since `ClosePath` does not update `last` |
| CoreGraphics.QuadCommandTracesQuad | piet-coregraphics/src/lib.rs:388-394 | the curve-to emitted for `QuadTo(p1, p2)` ends at `p2` and, started from `last`, traces exactly the quadratic (`last`, `p1`, `p2`) |
| CoreGraphics.CoreGraphicsContext.SetPath | piet-coregraphics/src/lib.rs:373-403 | the log gains `begin_path` followed by `PathCommands(path)`, with `last` kept equal to `LastAfter` of the elements walked so far |
| CoreGraphics.CoreGraphicsContext.SetFillBrush | piet-coregraphics/src/lib.rs:326-336 | a solid brush sets the fill color to its `Channels` and makes no other call |
| CoreGraphics.CoreGraphicsContext.SetStrokeBrush | piet-coregraphics/src/lib.rs:338-348 | a solid brush sets the stroke color to its `Channels` and makes no other call |
| CoreGraphics.CoreGraphicsContext.Clear | piet-coregraphics/src/lib.rs:98-107 | sets the fill color to the color's channels, then fills the clip bounding box |
| CoreGraphics.CoreGraphicsContext.Fill | piet-coregraphics/src/lib.rs:118-123 | path calls, then the brush's fill color, then a nonzero fill |
| CoreGraphics.CoreGraphicsContext.FillEvenOdd | piet-coregraphics/src/lib.rs:125-130 | path calls, then the brush's fill color, then an even-odd fill |
| CoreGraphics.CoreGraphicsContext.Clip | piet-coregraphics/src/lib.rs:132-135 | path calls, then a clip; the engine's clip box may change |
| CoreGraphics.CoreGraphicsContext.Stroke | piet-coregraphics/src/lib.rs:137-143 | path calls, then the default stroke state at `width`, the brush's stroke color and a stroke |
| CoreGraphics.CoreGraphicsContext.StrokeStyled | piet-coregraphics/src/lib.rs:145-157 | as `Stroke`, with the stroke state the style gives |
| CoreGraphics.CoreGraphicsContext.Save | piet-coregraphics/src/lib.rs:167-170 | pushes the native graphics state and succeeds |
| CoreGraphics.CoreGraphicsContext.Restore | piet-coregraphics/src/lib.rs:172-175 | pops the native graphics state and reports success; the engine's clip box may change |
| CoreGraphics.CoreGraphicsContext.Finish | piet-coregraphics/src/lib.rs:177-179 | always succeeds, with no native call |
| CoreGraphics.CoreGraphicsContext.CurrentTransform | piet-coregraphics/src/lib.rs:218-220 | answers the identity transform: every point maps to itself |
| Kurbo.Raise | piet-coregraphics/src/lib.rs:389-390 | degree elevation keeps both end points and puts the inner controls two thirds of the way from each end towards the quadratic's control |
| Kurbo.RaiseExact | piet-coregraphics/src/lib.rs:389-392 | the raised cubic equals the quadratic at every parameter |
| Kurbo.RaiseExact1 | piet-coregraphics/src/lib.rs:389-390 | the one-coordinate form of `RaiseExact` |
| Kurbo.DefaultAffine | piet-coregraphics/src/lib.rs:219 | `Affine::default()` maps every point to itself |
| CairoBack.NativeChannel | piet-common/src/cairo_back.rs:140-143 | output channel c is read from native byte 2, 1, 0, 3; alpha stays in place |
| CairoBack.RgbaOfNative | piet-common/src/cairo_back.rs:140-143 | a converted pixel has four bytes and keeps the native alpha |
| CairoBack.ReadIndexInBounds | piet-common/src/cairo_back.rs:137-143 | every byte read lies below `(height - 1) * stride + width * 4` |
| CairoBack.WriteIndexInBounds | piet-common/src/cairo_back.rs:138-143 | every byte written lies below `width * height * 4` |
| CairoBack.RowEndInBounds | piet-common/src/cairo_back.rs:137-143 | the pixels of any row end within the pixels of the last row, so within the buffer |
| CairoBack.RowFitsOutput | piet-common/src/cairo_back.rs:138 | output row y occupies `[y * width * 4, (y + 1) * width * 4)`, inside the output |
| CairoBack.DstIndexInjective | piet-common/src/cairo_back.rs:138-143 | distinct (row, column, channel) triples write distinct output bytes: no byte is written twice |
| CairoBack.DstIndexCovers | piet-common/src/cairo_back.rs:131-143 | every output byte is the destination of some (row, column, channel) |
| CairoBack.RowPixelsAt | piet-common/src/cairo_back.rs:139-144 | byte `4x + c` of a converted row is native byte `4x + NativeChannel(c)` of that row |
| CairoBack.RowPixelsLength | piet-common/src/cairo_back.rs:139-144 | a converted row of n pixels has 4n bytes |
| CairoBack.RowsLength | piet-common/src/cairo_back.rs:136-145 | y converted rows hold `y * width * 4` bytes, whatever the stride |
| CairoBack.RowsLast | piet-common/src/cairo_back.rs:137-143 | the last of the converted rows is that row's pixels, read at `y * stride` |
| CairoBack.RowsAt | piet-common/src/cairo_back.rs:136-145 | in the first `rows` rows, output byte `y * width * 4 + x * 4 + c` is native byte `y * stride + x * 4 + NativeChannel(c)` |
| CairoBack.RgbaPixelsLength | piet-common/src/cairo_back.rs:131 | the `RgbaPremul` image has exactly `width * height * 4` bytes |
| CairoBack.RgbaPixelsAt | piet-common/src/cairo_back.rs:136-145 | the per-pixel mapping: red from native byte 2, green from 1, blue from 0, alpha from 3 |
| CairoBack.RgbaPixelsLayout | piet-common/src/cairo_back.rs:131-145 | length and per-pixel mapping for every pixel at once |
| CairoBack.EveryByteFromSource | piet-common/src/cairo_back.rs:131-145 | every output byte is a byte read from the native buffer: none of the initial zeros survives |
| CairoBack.RowPaddingIgnored | piet-common/src/cairo_back.rs:137-143 | a converted row depends only on that row's first `width * 4` bytes |
| CairoBack.PaddingIgnored | piet-common/src/cairo_back.rs:136-145 | surfaces that differ only in row padding yield the same image |
| CairoBack.CopyRow | piet-common/src/cairo_back.rs:139-144 | the inner loop writes the row's converted pixels right after the bytes already written, and leaves the bytes before and after its row slot unchanged |
| CairoBack.CopySurfaceRow | piet-common/src/cairo_back.rs:136-145 | one outer iteration extends the written prefix from `y` converted rows to `y + 1` and leaves every later byte unchanged |
| CairoBack.CopyPixels | piet-common/src/cairo_back.rs:128-145 | the zero-filled `width * height * 4` buffer ends up holding exactly `RgbaPixels` of the surface |
| CairoBack.BitmapTarget.GetRawPixels | piet-common/src/cairo_back.rs:110-151 | any format but `RgbaPremul` gives `NotSupported`; otherwise `Ok` of `RgbaPixels`, of length `width * height * 4`, with every pixel's mapping |
| CairoBack.BitmapTarget.IntoRawPixels | piet-common/src/cairo_back.rs:105-107 | the same result as `get_raw_pixels` for every format |
| CairoBack.BitmapTarget.SaveToFile | piet-common/src/cairo_back.rs:171-174 | without PNG support, saving always fails with `MissingFeature` |

## Left out

- CoreGraphics.CoreGraphicsContext.SetFillBrush, SetStrokeBrush, Fill, FillEvenOdd, Stroke, StrokeStyled: these require a solid brush. A caller can construct `Brush::Gradient` directly and `make_brush` passes it through, but the `Brush::Gradient` arms of `set_fill_brush` and `set_stroke_brush` then panic with `unimplemented!()` (piet-coregraphics/src/lib.rs:334, 346); the requires excludes that panic.
- The other unimplemented operations of the CoreGraphics backend all panic, so there is no behaviour to model: `gradient`, `draw_text`, `transform`, `make_image`, `draw_image`, `draw_image_area`, `blurred_rect`, `status`, and the text, font and layout types.
- The text stubs of the SVG backend (`piet-svg/src/text.rs`) only return constant errors or panic.
- Native engines are seen only through the calls made on them, not through what they render. The clip box `clear` fills is whatever the engine reports. `clip` and `restore` may change it to anything (their frame covers the whole native context); what new box the engine computes is not modelled. `save` and the other operations leave it unchanged.
- Floating point is not modelled. Coordinates and fractions are exact reals, so the rounding of `byte_to_frac` and of kurbo's `raise` is absent. `width.round_into()` is the identity, as it is for an `f64` width.
- kurbo is not part of this model. `QuadBez::raise` is assumed to be the standard degree-elevation formula.
- `Shape::to_bez_path(1e-3)` and `Shape::bounding_box` are given as data: a shape is its path elements plus its bounding box.
- `Color::as_rgba_u32` is external. A color enters the model already packed as a 32-bit word.
- The temporary-context swap in `get_raw_pixels` is not modelled. It does not affect the returned pixels. It does affect later drawing: `self.cr` is recreated with `Context::new`, whose transform is the identity, so the `pix_scale` scaling set when the target was created is dropped.
- Surface I/O is not modelled. The failure of `surface.get_data` is not modelled, and neither is `surface.flush`. The surface is given as the buffer, dimensions and stride Cairo reports, under Cairo's guarantee that `stride >= width * 4` and that the buffer covers the last row's pixels.
- `Device::bitmap_target` and `render_context` are not modelled. They allocate and wrap native objects.
- The PNG-enabled `save_to_file` is not modelled. It does file I/O through an external encoder.
- Host byte order: Cairo's ARGB32 pixels are native-endian 32-bit words. The fixed byte moves 2, 1, 0, 3 are modelled exactly as the code makes them, but they yield R, G, B, A only on a little-endian host; on a big-endian host the same moves yield G, R, A, B, and the model does not distinguish hosts.
- Loop structure: the outer `for y` loop of `get_raw_pixels` and its body are separate methods. This keeps each proof small; the order of the writes is the source's.
- Close and the last point: `ClosePath` leaves `last` unchanged, as the code does. The native engine moves its current point back to the subpath's start on close. So a quadratic directly after a `ClosePath` is raised from the previous segment's end point, not from the subpath's start, and the model follows the code (`QuadAfterCloseRaisedFromLastEnd` shows the case).
