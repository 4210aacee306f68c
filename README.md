# ILI9488 display driver for the Raspberry Pi Pico, in Dafny

This project models the ILI9488_Pico driver for the ILI9488 480 x 320 TFT
controller, and the integer and string logic of the example programs that
come with it. Every operation is stated as a Dafny function or imperative
method with a contract, and properties of the model are proved as lemmas.

- **Transport** (`hal.dfy`, module `Hal`). The file-scope state of the HAL
  is the class `Hal.Bus`: the saved pin configuration, the CS, DC and RESET
  levels, the backlight level, the DMA channel and busy flag, and a log of
  bus events. The events are pin edges, SPI transfers tagged by the DC level
  they were clocked under, and delays. `Wire(log)` projects the log onto the
  stream of command and data bytes the controller receives. The DMA
  completion interrupt is an ordinary method that the caller invokes.
- **Engine** (`driver.dfy`, module `Driver`). The driver state
  (`is_initialized`, width, height, rotation) is the class `Driver.Display`
  over a `Bus`. Every engine call is proved to append exactly a stated event
  sequence. The lemmas beside them decode that sequence on the wire: the
  window it programs, the pixel bytes it streams, and the fact that the batch
  sizes used by the fills and by write_pixels are invisible to the
  controller.
- **Rasterizer** (`gfx.dfy`, `gfx_circles.dfy`, `gfx_triangles.dfy`).
  Each routine is a method whose effect is the list of engine calls it
  makes, such as `Pixel`, `HLine` and `VLine`. The geometry is proved about
  that list:
  - Bresenham end points and step shape;
  - the midpoint circle staying on the rasterised circle;
  - the sort and the scanlines of fill_triangle.
- **Examples**:
  - the colour helpers of the C demo (`demo_colors.dfy`);
  - the HSV conversion and colour blend of the graphics demo
    (`graphics_demo.dfy`);
  - the Snake rules (`snake.dfy`), where the game state is a class over a
    fixed segment array and `rand()` is an oracle that supplies its values
    in advance;
  - the CollisionX stamp and dot rules (`collisionx.dfy`);
  - the text reader's file name, UTF-8, word-wrap and page logic
    (`text_reader.dfy`), with the font's string width as a parameter;
  - the pin and SPI configuration records (`pin_config.dfy`).
- **Helpers** (`ints.dfy`, module `Ints`): C's fixed-width types and
  conversions (`U8`, `U16`, `U32`, `I16`, `I32`), and C's truncating signed
  division `TDiv`.

Where the code and its documentation disagree, the model follows the code:

- `rgb24_to_rgb666` sends the three bytes unshifted. The `>> 2` version
  exists only as the demo's own helper.
- `set_window` and `write_pixels` do not order reversed bounds.
  `write_pixels` then makes its `uint32_t` pixel count wrap
  (`Driver.WritePixelsReversedArea`).
- `set_partial_area` rejects an out-of-range coordinate instead of clamping
  it. It stores no partial-area state.
- moveSnake checks the new head against every current segment, the tail
  included. The snake therefore cannot move into the cell its tail is about
  to leave.

## Model

| member | source | states |
|---|---|---|
| Hal.Bus.constructor | src/ili9488_hal.c:15-23 | The statics before hal_init: zero configuration, every pin level low, brightness 0, no DMA channel, not busy, empty log. |
| Hal.Bus.Init | src/ili9488_hal.c:38-86 | A missing configuration returns false and changes nothing. Otherwise the configuration is saved, CS, DC and RESET go high, the backlight starts at 255, and the stated events are logged. |
| Hal.Bus.PutCs | src/ili9488_hal.c:89-91 | The CS level becomes the argument and one CS edge is logged. |
| Hal.Bus.PutDc | src/ili9488_hal.c:94-96 | The DC level becomes the argument and one DC edge is logged. |
| Hal.Bus.SpiWrite | src/ili9488_hal.c:117 | One SPI transfer of the bytes is logged, tagged with the current DC level. |
| Hal.Bus.Reset | src/ili9488_hal.c:99-111 | RESET is driven 1, 0, 1 with 10, 10 and 150 ms delays, and ends high. |
| Hal.Bus.DelayMs | src/ili9488_hal.c:185-187 | One delay of the given length is logged. |
| Hal.Bus.WriteCmd | src/ili9488_hal.c:114-119 | CS low, DC low, one command byte, CS high. The DMA state is not consulted. |
| Hal.Bus.WriteData | src/ili9488_hal.c:122-127 | CS low, DC high, one data byte, CS high. |
| Hal.Bus.WriteDataBuffer | src/ili9488_hal.c:130-152 | An empty buffer logs nothing and leaves CS and DC alone. Otherwise one CS-low span in data mode carries the buffer's chunks, then CS goes high. |
| Hal.ChunksSplitBuffer | src/ili9488_hal.c:139-148 | Every chunk is a non-empty data transfer of at most 4096 bytes. The chunks concatenate to exactly the buffer, and on the wire they are the buffer's bytes in data mode. |
| Hal.BufferWire | src/ili9488_hal.c:130-152 | A buffer write reaches the controller as exactly the buffer's bytes, each in data mode. |
| Hal.BacklightGuardAlwaysHolds | src/ili9488_hal.c:156-159 | `pin_bl != -1` compares a uint8_t with -1 after promotion, so it holds for every pin: the no-backlight branch never runs. |
| Hal.Bus.SetBacklight | src/ili9488_hal.c:155-168 | Brightness becomes 255 when on and 0 when off. |
| Hal.Bus.SetBacklightBrightness | src/ili9488_hal.c:171-182 | Brightness becomes the level given. |
| Hal.Bus.WriteDataDma | src/ili9488_hal.c:200-259 | It succeeds exactly when the buffer is non-empty, a channel is held or can be claimed, and no transfer is in flight. On success busy is set, DC goes high, CS goes low and the transfer is logged. On failure busy, CS, DC and the log are unchanged. A channel is claimed only when none is held. |
| Hal.Bus.DmaCompleteHandler | src/ili9488_hal.c:26-35 | CS goes high and busy is cleared. It is the only method that clears busy. |
| Hal.Bus.IsDmaBusy | src/ili9488_hal.c:266-268 | Returns the busy flag. |
| Hal.Bus.WaitDmaIdle | src/ili9488_hal.c:273-277 | Returns with busy clear. If a transfer was in flight, the completion handler's CS release is logged. |
| Hal.DmaHandshake | src/ili9488_hal.c:200-268 | The sequence start, start again, read busy, completion, read busy, start gives success, failure, busy, idle and success. |
| Driver.Rgb565ToRgb666 | src/ili9488.c:175-185 | The conversion whose properties Rgb565Channels, Rgb565RoundTrip and Rgb565White state. |
| Driver.Rgb565Channels | src/ili9488.c:175-185 | Each channel fits in six bits and carries its 5- or 6-bit field in its top bits. Red and blue repeat the field's top bit in their low bit. |
| Driver.Rgb565RoundTrip | src/ili9488.c:175-185 | The RGB565 word can be recovered from the converted pixel, so the conversion loses nothing. |
| Driver.Rgb565White | src/ili9488.c:175-185 | 0xFFFF becomes (63, 63, 63). |
| Driver.Rgb24ToRgb666 | src/ili9488.c:188-196 | The three bytes are the low 24 bits of the colour, unshifted. |
| Driver.NamedColoursUseSixBits | include/ili9488.h:42-49 | The named 24-bit colours carry nothing in the low two bits of any byte. White is sent as 0xFC on all three channels. |
| Driver.MadctlOrientation | src/ili9488.c:250-280 | For each rotation mod 4 the MADCTL value is 0x48, 0x28, 0x88 or 0xE8. BGR is always set. Row/column exchange is set exactly in the 480-wide orientations. |
| Driver.WindowRoundTrip | src/ili9488.c:155-172 | The controller latches exactly the window requested, unordered bounds included: CASET, then PASET with big-endian bounds, then RAMWR. |
| Driver.PixelWire | src/ili9488.c:199-212 | Off the panel, nothing is sent. On it, the window (x, y, x, y) is sent, then exactly the pixel's three bytes. |
| Driver.PixelBatchesWire | src/ili9488.c:384-389 | However the pixels are cut into batches, the controller receives exactly their bytes, in data mode. |
| Driver.BatchingInvisible | src/ili9488.c:484-512 | Two batch sizes give the same wire image. The per-pixel and the 256-pixel paths of fill_area therefore agree. |
| Driver.Cycle565Index | src/ili9488.c:364-382 | Pixel i of write_pixels is the conversion of colour entry i mod len. |
| Driver.Cycle24Index | src/ili9488.c:421-439 | Pixel i of write_pixels_rgb24 is the conversion of colour entry i mod len. |
| Driver.AdvanceMod | src/ili9488.c:372 | a steps of the `(color_idx + 1) % len` update from k land on (k + a) mod len. |
| Driver.CycleFromIndex | src/ili9488.c:372-381 | Entry i of a cyclic read from `start` is table entry (start + i) mod len. |
| Driver.FillAreaWire | src/ili9488.c:459-515 | fill_area programs the ordered window, then sends the colour once per pixel of the window. |
| Driver.FillAreaCount | src/ili9488.c:481 | The uint32_t count equals the true area, except when both spans cover the whole 16-bit range. There it wraps to zero. |
| Driver.FillAreaRgb24Wire | src/ili9488.c:526-578 | Any coordinate off the panel sends nothing. Otherwise the ordered window is sent, then the raw bytes once per pixel. |
| Driver.WritePixelsWire | src/ili9488.c:346-391 | The window as given, then exactly the pixels' bytes. |
| Driver.WritePixelsReversedArea | src/ili9488.c:357 | Reversed bounds make the uint32_t count wrap: x1 = x0 - 2 on one row asks for 2^32 - 1 pixels, and x1 = x0 - 1 for 0. |
| Driver.PartialAreaWire | src/ili9488.c:308-334 | Any coordinate off the panel sends nothing. Otherwise PTLAR is sent with the ordered rows only, both on the panel. |
| Driver.InitSequenceWire | src/ili9488.c:20-90 | The vendor sequence reaches the controller as the documented command and data stream, in order: reset, sleep-out, MADCTL, pixel format, VCOM, power, both gamma tables, inversion, display on. |
| Driver.InitSequenceStages | src/ili9488.c:20-90 | The sequence is its four stages, one after another. |
| Driver.PutPixel | src/ili9488.c:379-381 | Stores a pixel's three bytes at pixel slot i of a buffer and leaves the bytes before it alone. |
| Driver.FillSolid | src/ili9488.c:499-503 | The prefill loop leaves n copies of the pixel at the start of the buffer. |
| Driver.FillBuffer565 | src/ili9488.c:369-382 | The batch loop fills the buffer with n converted colours, read cyclically from `start`, and returns the index to continue from. |
| Driver.FillBuffer24 | src/ili9488.c:426-439 | The batch loop fills the buffer with n converted 24-bit colours, read cyclically from `start`, and returns the index to continue from. |
| Driver.Display.constructor | src/ili9488.c:12-17 | The zero-initialised driver: not initialised, size 0 x 0, rotation 0. |
| Driver.Display.InitSequence | src/ili9488.c:20-90 | Appends exactly the vendor sequence to the log. |
| Driver.Display.Init | src/ili9488.c:93-142 | Success exactly when already initialised or given a configuration. An initialised driver or a missing configuration leaves every field, the CS, DC and RESET levels and the log unchanged. Otherwise the HAL, reset, sequence and rotation steps run. The driver ends initialised with the rotation's size, the configuration saved, the backlight at 255, and RESET, CS and DC high. |
| Driver.Display.PowerUp | src/ili9488.c:106-139 | HAL init, reset, vendor sequence, then the configured rotation, with their exact events. It ends with RESET, CS and DC high. |
| Driver.Display.SetBacklight | src/ili9488.c:145-147 | Brightness becomes 255 when on and 0 when off. |
| Driver.Display.SetBacklightBrightness | src/ili9488.c:150-152 | Brightness becomes the level given. |
| Driver.Display.SetWindow | src/ili9488.c:155-172 | Appends the window events for the bounds as given. |
| Driver.Display.DrawPixel | src/ili9488.c:199-212 | Appends the clipped pixel events for the RGB565 colour. |
| Driver.Display.DrawPixelRgb24 | src/ili9488.c:215-230 | Appends the clipped pixel events for the raw 24-bit bytes. |
| Driver.Display.WriteDataBuffer | src/ili9488.c:233-235 | Appends one buffer write. |
| Driver.Display.SetRotation | src/ili9488.c:250-280 | Rotation becomes r mod 4, with size 320 x 480 or 480 x 320. One MADCTL command is sent, and CS and DC end high. |
| Driver.Display.PartialMode | src/ili9488.c:287-298 | PTLON when enabled, NORON otherwise, then a 10 ms delay. |
| Driver.Display.SetPartialArea | src/ili9488.c:308-334 | Appends the partial-area events. |
| Driver.Display.FillArea | src/ili9488.c:459-515 | Appends the fill events of the ordered window for the converted colour. |
| Driver.Display.FillAreaRgb24 | src/ili9488.c:526-578 | Appends the bounds-checked fill events for the raw bytes, sent 128 pixels at a time. |
| Driver.Display.WritePixelByPixel | src/ili9488.c:487-492 | Each of the n copies of the pixel goes out in a buffer write of its own. |
| Driver.Display.WriteSolidBatches | src/ili9488.c:499-512 | The n copies are sent from a buffer prefilled with `cap` copies, in writes of at most `cap` pixels. |
| Driver.Display.FillScreen | src/ili9488.c:238-241 | The fill of (0, 0)-(width - 1, height - 1), with uint16_t wrap-around. |
| Driver.Display.FillScreenRgb24 | src/ili9488.c:244-247 | The 24-bit fill of the whole panel. |
| Driver.Display.WritePixels | src/ili9488.c:346-391 | An empty array sends nothing. Otherwise the window is sent, then the area's pixels taken cyclically from the array, 32 at a time. |
| Driver.Display.WritePixelsRgb24 | src/ili9488.c:403-448 | As WritePixels, from 24-bit colours. |
| Driver.Display.SendCycled565 | src/ili9488.c:364-389 | The batch loop sends the area's pixels, colours taken cyclically from the array, in writes of at most 32 pixels. |
| Driver.Display.SendCycled24 | src/ili9488.c:421-446 | The same for 24-bit colours. |
| Driver.Display.WriteDataDma | src/ili9488.c:587-598 | An empty buffer fails and touches nothing. Otherwise DC goes high and the HAL's DMA start either takes the transfer or refuses it. |
| Driver.FillScreenBeforeInit | src/ili9488.c:238-241 | Before init the size is 0 x 0, so the screen fill's bounds wrap to 65535 and its pixel count to 0: only the window is sent. |
| Driver.FillScreenCoversPanel | src/ili9488.c:238-241 | After set_rotation a full-screen fill sends the panel window and exactly 320 x 480 copies of the colour. |
| Gfx.HLineWire | src/ili9488_gfx.c:17-30 | A zero width sends nothing. Otherwise the window from x to x + w - 1 (mod 2^16) on row y is sent, then exactly w copies of the pixel. |
| Gfx.VLineWire | src/ili9488_gfx.c:33-46 | A zero height sends nothing. Otherwise the window in column x from y to y + h - 1 (mod 2^16) is sent, then exactly h copies. |
| Gfx.SpanWire | src/ili9488_gfx.c:17-46 | A zero-length span sends nothing. Otherwise the controller decodes the span's window, followed by exactly n copies of the pixel. |
| Gfx.DrawHLine | src/ili9488_gfx.c:17-30 | Appends the span events of the horizontal line. |
| Gfx.DrawVLine | src/ili9488_gfx.c:33-46 | Appends the span events of the vertical line. |
| Gfx.DrawHLineRgb24 | src/ili9488_gfx.c:49-62 | The horizontal span for the raw 24-bit bytes. |
| Gfx.DrawVLineRgb24 | src/ili9488_gfx.c:65-78 | The vertical span for the raw 24-bit bytes. |
| Gfx.DrawRect | src/ili9488_gfx.c:153-159 | Top, bottom, left and right side, in that order. |
| Gfx.RectRender | src/ili9488_gfx.c:153-159 | The rectangle's events are its four spans' events, in order. |
| Gfx.RectCorners | src/ili9488_gfx.c:154-158 | The four sides meet at the corners and have the rectangle's width and height. |
| Gfx.FillRect | src/ili9488_gfx.c:162-177 | Appends the window over the rectangle, then w x h pixels. |
| Gfx.FillRectRgb24 | src/ili9488_gfx.c:180-195 | The same for the raw 24-bit bytes. |
| Gfx.FillRectWire | src/ili9488_gfx.c:162-177 | The uint32_t w x h never wraps. The controller gets the window (x, y)-(x + w - 1, y + h - 1) and exactly w x h pixels. |
| Gfx.FillRectZeroWidth | src/ili9488_gfx.c:162-177 | A zero-width rectangle still programs a window whose right edge wraps to x - 1, and sends no pixel. |
| Gfx.DrawLine | src/ili9488_gfx.c:81-150 | Appends the events of the line's drawing calls: a span on one row or column, otherwise one pixel per Bresenham step. |
| Gfx.HorizontalLine | src/ili9488_gfx.c:83-91 | The horizontal case orders the ends and makes one draw_hline: the line's drawing calls. |
| Gfx.VerticalLine | src/ili9488_gfx.c:93-101 | The vertical case orders the ends and makes one draw_vline. |
| Gfx.SlopedLine | src/ili9488_gfx.c:104-149 | The swaps, the int16_t set-up and the loop together append the sloped line's pixels. |
| Gfx.HorizontalPrims | src/ili9488_gfx.c:83-91 | End points on one row give one draw_hline from the left end, |x1 - x0| + 1 long. |
| Gfx.VerticalPrims | src/ili9488_gfx.c:93-101 | End points in one column give one draw_vline from the upper end. |
| Gfx.Normalise | src/ili9488_gfx.c:104-125 | After the steep and left-to-right swaps the ends are ordered and the driving distance is the larger of |dx| and |dy|. They map back to the original end points, in one order or the other. |
| Gfx.BresenhamShape | src/ili9488_gfx.c:138-149 | One point per column from x0 to x1. The column rises by one per point, and the row moves by at most one ystep per point. |
| Gfx.BresenhamEnds | src/ili9488_gfx.c:127-149 | When the driving distance fits an int16_t, the loop goes from (x0, y0) to exactly (x1, y1). |
| Gfx.LineEndpoints | src/ili9488_gfx.c:81-150 | For a sloped line, Max(|dx|, |dy|) + 1 pixels, the first and last at the two end points. |
| Gfx.BresenhamLoop | src/ili9488_gfx.c:138-149 | The loop appends the pixels of the Bresenham run. |
| Gfx.BresenhamTurn | src/ili9488_gfx.c:139-148 | One iteration: plot the point (transposed when steep), then step the error term and the row. |
| GfxCircles.DrawCircle | src/ili9488_gfx.c:198-230 | Appends the four axis pixels, then the eight reflections of each point of the octant walk. |
| GfxCircles.NextInv | src/ili9488_gfx.c:211-219 | One turn keeps the decision invariant. x rises by one, y drops by at most one, and it drops exactly when f >= 0. No int16_t operation wraps. |
| GfxCircles.OctantColumns | src/ili9488_gfx.c:211-229 | The walk visits one point per column, and some point exactly when it starts above the diagonal. |
| GfxCircles.OctantRows | src/ili9488_gfx.c:211-229 | y never rises and drops by at most one per column. Every point but the last is above the diagonal, and the last is on it or one below. |
| GfxCircles.OctantOnCircle | src/ili9488_gfx.c:211-229 | Every point of the walk lies on the rasterised circle of radius r. |
| GfxCircles.CircleOnCircle | src/ili9488_gfx.c:198-230 | For r below 2^14 with the circle inside the 16-bit plane, every pixel drawn lies on the rasterised circle. |
| GfxCircles.FillCircle | src/ili9488_gfx.c:233-237 | Appends the centre column of height 2r + 1, then the helper's spans with corners 3 and delta 0, as written. |
| GfxCircles.FillCircleHelper | src/ili9488_gfx.c:240-273 | Appends the helper's spans, as written. |
| GfxCircles.HelperSpans | src/ili9488_gfx.c:262-270 | One turn's spans, guarded by x < y + 1 and y != py, each for corners bit 1 and bit 2. Returns the new py. |
| GfxCircles.FillCircleOverreach | src/ili9488_gfx.c:263 | As written, the first span after the centre column is a horizontal run of 2r pixels from (x0 + 1, y0 - r). It leaves the circle's square. |
| GfxCircles.FillCircleChords | src/ili9488_gfx.c:233-273 | With the spans drawn vertically, every span is a chord of the disk inside the circle's square. |
| GfxCircles.FillCircleColumns | src/ili9488_gfx.c:233-273 | With the spans drawn vertically, every column x0 ± c with c <= r gets its full chord, from the circle's highest pixel in that column down to its mirror, so the whole disk is covered. |
| GfxCircles.HelperColumns | src/ili9488_gfx.c:255-271 | The helper's walk from (x, y) fills every column offset from x + 1 to y. |
| GfxCircles.TopMirror | src/ili9488_gfx.c:255-268 | Where the walk drops y, the mirror of its last point is the highest circle pixel in column y. |
| GfxCircles.CentreChord | src/ili9488_gfx.c:233-237 | The centre column fill_circle draws first is the vertical diameter. |
| GfxTriangles.DrawTriangle | src/ili9488_gfx.c:283-288 | The three edges, in order. |
| GfxTriangles.TriangleCorners | src/ili9488_gfx.c:283-288 | The outline passes through all three corners when they are less than 2^15 apart. |
| GfxTriangles.LineCoversEnds | src/ili9488_gfx.c:81-150 | Whichever case it takes, a line draws both of its end points. |
| GfxTriangles.Order | src/ili9488_gfx.c:295-306 | One conditional swap leaves the pair ordered by row, and holds the same two corners. |
| GfxTriangles.OrderCorners | src/ili9488_gfx.c:276-280 | One conditional two-coordinate swap puts the corner that is further down second. |
| GfxTriangles.SortByY | src/ili9488_gfx.c:295-306 | The three conditional swaps order the corners by row and keep the same three corners. |
| GfxTriangles.SortCorners | src/ili9488_gfx.c:295-306 | The three swaps, each exchanging both coordinates, leave the corners as SortByY orders them. |
| GfxTriangles.FillTriangle | src/ili9488_gfx.c:291-347 | Appends the spans of the sorted triangle: one row when all corners share a row, otherwise the rows of both loops. |
| GfxTriangles.FlatRowSpan | src/ili9488_gfx.c:309-317 | For x below 2^15 the one-row span runs exactly from the smallest x to the largest. |
| GfxTriangles.TriangleRowsClosed | src/ili9488_gfx.c:319-347 | One span per row, from the top corner's row to the bottom corner's. Row y spans the crossings of the long edge and of the current short edge. |
| GfxTriangles.TriangleLoops | src/ili9488_gfx.c:325-347 | The two loops, with the slopes and the `last` row as computed, draw exactly the triangle's rows. Neither divides by a zero row delta. |
| GfxTriangles.TriangleFill | src/ili9488_gfx.c:319-347 | For corners sorted by row and not on one row, the two loops append the triangle's rows. |
| GfxTriangles.LoopRowsClosed | src/ili9488_gfx.c:328-347 | From sums that start at the right products, a loop draws the rows between its two edges, and no int32_t sum wraps. |
| GfxTriangles.RowSpanCovers | src/ili9488_gfx.c:328-347 | A row's span runs exactly from the smaller crossing to the larger, on that row, and covers both. |
| GfxTriangles.ProductBound | src/ili9488_gfx.c:331-332 | dx times a row offset below 2^15 fits an int32_t. |
| GfxTriangles.TriangleRowShape | src/ili9488_gfx.c:328-347 | For x below 2^15, each row's span runs between the two edge crossings, which lie within the triangle's columns. |
| GfxTriangles.TopCornerDrawn | src/ili9488_gfx.c:328-335 | The first row covers the top corner. |
| GfxTriangles.MiddleCornerDrawn | src/ili9488_gfx.c:325-347 | Row y1 covers the middle corner. |
| GfxTriangles.BottomCornerDrawn | src/ili9488_gfx.c:340-347 | The last row covers the bottom corner. |
| GfxTriangles.SumStep | src/ili9488_gfx.c:331-332 | The int32_t running sums stay exact for rows below 2^15. |
| GfxTriangles.EdgeLoop | src/ili9488_gfx.c:328-347 | One loop appends one span per row between the two crossings, and returns the row it stops on. |
| DemoColors.Color565 | examples/ili9488_demo.c:48-50 | Unpacking gives back r & 0x1F, g & 0x3F and b & 0x1F. |
| DemoColors.Color666 | examples/ili9488_demo.c:54-62 | The low two bits of every byte and everything above bit 23 are zero. Splitting the colour again gives back the 6-bit channels. |
| DemoColors.Rgb24ToRgb666 | examples/ili9488_demo.c:65-74 | Every channel is at most 63. |
| DemoColors.StringColour | examples/ili9488_demo.c:81-86 | The RGB565 colour keeps the top five, six and five bits of the three bytes. |
| DemoColors.StringColourExtremes | examples/ili9488_demo.c:81-86 | 0xFCFCFC is drawn as 0xFFFF and black as 0. |
| DemoColors.HeaderColours | include/ili9488.h:42-47 | Black, white, red, green and blue are ili9488_color_666 of channels that are each 63 or 0. |
| GraphicsDemo.Sector | examples/ili9488_graphics_demo.cpp:95-96 | The region is at most 5 and the remainder at most 252, a multiple of 6. h = 43 x region + remainder / 6. |
| GraphicsDemo.HsvLevels | examples/ili9488_graphics_demo.cpp:98-100 | p, q and t fit a uint8_t without truncation. p <= q <= v and p <= t <= v. |
| GraphicsDemo.HsvToRgb | examples/ili9488_graphics_demo.cpp:89-113 | No channel exceeds v and one equals v. A grey is (v, v, v). Otherwise the dimmest channel is v(255 - s) / 256. |
| GraphicsDemo.Pack | examples/ili9488_graphics_demo.cpp:128 | Packing then splitting gives the fields back. |
| GraphicsDemo.PackFields | examples/ili9488_graphics_demo.cpp:116-128 | Splitting then packing gives the colour back. |
| GraphicsDemo.Mix | examples/ili9488_graphics_demo.cpp:124-126 | The blended channel lies between the two input channels. |
| GraphicsDemo.BlendColors | examples/ili9488_graphics_demo.cpp:115-129 | Each field of the blend lies between the inputs' fields. |
| GraphicsDemo.BlendExtremes | examples/ili9488_graphics_demo.cpp:115-129 | Alpha 255 gives the first colour, and alpha 0 the second. |
| Snake.OppositeCancels | examples/SnakeGame.cpp:202-207 | Opposite exactly when both are moves whose offsets cancel: up/down and left/right, either way round. The relation is symmetric and never involves no-direction. |
| Snake.Turn | examples/SnakeGame.cpp:212-215 | The direction taken is the current or the requested one, and never the reverse of the current. |
| Snake.Advance | examples/SnakeGame.cpp:218-235 | One cell in the direction, with int16_t wrap-around. No-direction gives no head. |
| Snake.Shift | examples/SnakeGame.cpp:264-269 | The new head goes to index 0 and segments 1 to length - 1 are the old 0 to length - 2. Cells from length on are untouched. |
| Snake.ShiftKeepsBody | examples/SnakeGame.cpp:264-269 | A free head cell inside the wall keeps the body free of repeats and inside the wall. On growth the stale cell is overwritten. |
| Snake.GrowthKeepsTail | examples/SnakeGame.cpp:256-266 | On growth the old tail stays the last segment. |
| Snake.PlaceFood | examples/SnakeGame.cpp:122-147 | The food lands inside the wall and off the segments, after at least one attempt of two rand() values. |
| Snake.PlaceFoodIsLastAttempt | examples/SnakeGame.cpp:125-144 | The food is the cell of the last attempt. |
| Snake.PlaceFoodRetry | examples/SnakeGame.cpp:136-143 | A failed attempt uses two values and leaves the outcome to the ones that remain. |
| Snake.FoodUnderNewHead | examples/SnakeGame.cpp:252-269 | generateFood checks the segments before the move, so new food can land under the head that has just eaten. A concrete board and rand() values exhibit it. |
| Snake.Grow | examples/SnakeGame.cpp:256-258 | One more segment, but never above 200. |
| Snake.StillStep | examples/SnakeGame.cpp:233-234 | Without a direction nothing changes and the game goes on. |
| Snake.Step | examples/SnakeGame.cpp:210-272 | One tick of updateSnake; StepEnds, StepPlain, StepEats and StepKeepsWellFormed state when the game ends, the plain move, the meal and the body invariant it keeps. |
| Snake.StepEnds | examples/SnakeGame.cpp:237-249 | The game ends exactly when the new head is on the wall ring or on a segment, the tail included. The board and rand() are then untouched. |
| Snake.StepPlain | examples/SnakeGame.cpp:251-271 | A move onto a free cell without food keeps length, score and food, and shifts the body behind the new head. |
| Snake.StepEats | examples/SnakeGame.cpp:252-269 | Eating adds 10 to the uint16_t score and grows the snake up to 200, keeping the old tail. The new food lies inside the wall and off the segments as they were before the shift. |
| Snake.StepKeepsWellFormed | examples/SnakeGame.cpp:210-272 | The body stays inside the wall with no repeated cell. |
| Snake.InitialBody | examples/SnakeGame.cpp:157-163 | The initial three segments are inside the wall and distinct. |
| Snake.Game.Occupied | examples/SnakeGame.cpp:244-249 | The scan finds p exactly when it is one of the current segments. |
| Snake.Game.TryFood | examples/SnakeGame.cpp:127-143 | Two rand() values pick the cell. The attempt succeeds exactly when the cell is off the body. |
| Snake.Game.GenerateFood | examples/SnakeGame.cpp:122-147 | The food is PlaceFood's cell, and exactly the rand() values it counts are used. |
| Snake.Game.InitializeGame | examples/SnakeGame.cpp:150-175 | Length 3, both directions right, segments (10 - i, 15), score and flags cleared, then the first food. |
| Snake.Game.PlaceInitialSnake | examples/SnakeGame.cpp:160-163 | The loop writes the three initial segments and nothing else. |
| Snake.Game.MoveSnake | examples/SnakeGame.cpp:210-272 | The direction becomes Turn's, and the result, new state and remaining rand() values are exactly Step's. |
| Snake.Game.NewHead | examples/SnakeGame.cpp:218-235 | The switch gives Advance's head, or none without a direction. |
| Snake.Game.Land | examples/SnakeGame.cpp:251-269 | For a free head: growth and new food on the food cell, then the shift. The new state is exactly Landed's. |
| Snake.Game.ShiftBody | examples/SnakeGame.cpp:264-269 | The array becomes Shift of the old one. |
| CollisionX.LineCollision | examples/CollisionX.cpp:188-191 | checkLineCollision's test; ValidAreaClearOfLines states the rows it accepts. |
| CollisionX.InValidArea | examples/CollisionX.cpp:205-208 | isPositionInValidArea's test; ValidAreaClearOfLines states the rows it accepts and that they are clear of both lines. |
| CollisionX.ValidAreaClearOfLines | examples/CollisionX.cpp:188-208 | A block is clear of both lines exactly for rows 34 to 256. Stamping is allowed exactly for rows 39 to 251, which are clear of the lines. |
| CollisionX.StampPositions.constructor | examples/CollisionX.cpp:47-51 | No stamps. |
| CollisionX.StampPositions.AddStamp | examples/CollisionX.cpp:211-217 | Below 50 stamps the stamp goes in at index count and count rises by one. At 50 nothing changes. |
| CollisionX.StampPositions.CheckStampCollision | examples/CollisionX.cpp:220-228 | True exactly when some stamp in use is within 30 pixels on both axes. |
| CollisionX.StampPositions.IsPositionOccupied | examples/CollisionX.cpp:194-202 | The same predicate as checkStampCollision. |
| CollisionX.StampsOnlyAccumulate | examples/CollisionX.cpp:211-217 | A new stamp adds its own overlap and keeps every earlier overlap. |
| CollisionX.Clamp | examples/CollisionX.cpp:262-269 | The corrected position lies in [0, 449] x [0, 289], and coordinates already in range are kept. |
| CollisionX.NegateTwice | examples/CollisionX.cpp:245-257 | Two int16_t negations cancel, -32768 included. |
| CollisionX.Neg16 | examples/CollisionX.cpp:245-251 | Unary minus on an int16_t is exact except at -32768, which wraps onto itself. |
| CollisionX.ReverseAtEdges | examples/CollisionX.cpp:243-251 | Each speed is reversed exactly when its axis crossed an edge, and the flag says whether either did. |
| CollisionX.ClampOnScreen | examples/CollisionX.cpp:262-269 | The field-by-field corrections compute Clamp. |
| CollisionX.DotStep | examples/CollisionX.cpp:231-271 | One dot's update in updateWanderingDots; DotStepFrame, DotBounce, DotAfterEdge and DotSpeedsKeepSize state what it keeps and where the dot lands. |
| CollisionX.ActiveDotStep | examples/CollisionX.cpp:236-269 | An active dot's edge reversal, clamp and stamp bounce; DotBounce, DotAfterEdge and DotSpeedsKeepSize state its effect, and UpdateDot computes it. |
| CollisionX.DotStepFrame | examples/CollisionX.cpp:233 | Inactive dots do not move. A step keeps the colour and the active flag. |
| CollisionX.DotBounce | examples/CollisionX.cpp:254-259 | A dot that lands on a stamp goes back to its old position, clamped after an edge hit. Each speed is negated once more on top of any edge negation. |
| CollisionX.DotAfterEdge | examples/CollisionX.cpp:243-269 | After an edge hit the dot lies in [0, 449] x [0, 289]. |
| CollisionX.DotSpeedsKeepSize | examples/CollisionX.cpp:245-257 | Speeds in [-4, 4] keep their size, because every change is a reversal. |
| CollisionX.UpdateDot | examples/CollisionX.cpp:236-269 | One active dot's update is the specification ActiveDotStep. |
| CollisionX.NewDot | examples/CollisionX.cpp:278-289 | The new dot is active, within columns 50-399 and rows 75-236, with each speed in [-4, 3] and never 0. |
| CollisionX.WanderingDots.UpdateDots | examples/CollisionX.cpp:231-271 | Every dot in use takes DotStep against the stamps. The unused slots are unchanged. |
| CollisionX.WanderingDots.AddWanderingDot | examples/CollisionX.cpp:274-297 | At 10 dots nothing changes. Otherwise the new dot goes in at index count and count rises by one. |
| CollisionX.Target | examples/CollisionX.cpp:523-528 | The switch: one MOVE_STEP up, down, left or right in int16_t for directions 1-4, and no move for any other direction. |
| CollisionX.MoveBlock | examples/CollisionX.cpp:521-533 | The switch's target is taken exactly when the block lies wholly on the screen there; otherwise the block stays. A move is one 8-pixel step along one axis or none, and a block on the screen stays on it. |
| CollisionX.MoveBlockOnScreen | examples/CollisionX.cpp:521-533 | For a block on the screen, each direction moves it 8 pixels that way unless the step would cross that edge, when it stays, with no int16_t wrap. |
| TextReader.ExtractFilename | examples/ILI9488_TextReader.cpp:67-75 | The name is a suffix of the path with no separator in it. When shorter than the path, it follows a separator. |
| TextReader.FilenameAfterSeparator | examples/ILI9488_TextReader.cpp:67-75 | Whatever precedes the last separator, the part after it is the name. |
| TextReader.StoneFilename | examples/ILI9488_TextReader.cpp:828 | "/Stone.txt" is shown as "Stone.txt". |
| TextReader.Utf8CharLength | examples/ILI9488_TextReader.cpp:457-464 | At most 4. Zero exactly past the end, and one exactly for an ASCII byte. |
| TextReader.Utf8LengthMonotone | examples/ILI9488_TextReader.cpp:457-464 | A higher lead byte never announces a shorter sequence, and every byte announces 1 to 4. |
| TextReader.ChineseCharsAreThreeBytes | examples/ILI9488_TextReader.cpp:449-464 | is_chinese_char holds exactly for the lead bytes that announce three bytes. |
| TextReader.Step | examples/ILI9488_TextReader.cpp:478-546 | Every round moves the position forward, so the loop ends. |
| TextReader.FindSpace | examples/ILI9488_TextReader.cpp:505-506 | The first space at or after the position, with npos written as the text's length. |
| TextReader.ChineseFrom | examples/ILI9488_TextReader.cpp:509-514 | The word stops at the first Chinese lead byte before its end, and at its end when there is none. |
| TextReader.WrapText | examples/ILI9488_TextReader.cpp:467-555 | The specification of wrap_text_lines; WrapTextLinesSound, WrapEmptyLine and WrapSpacesOnly state its properties. |
| TextReader.WrapTextLines | examples/ILI9488_TextReader.cpp:467-555 | The loop computes the specification WrapText. |
| TextReader.FindWordEnd | examples/ILI9488_TextReader.cpp:509-514 | The inner scan stops at the first Chinese lead byte before the next space. |
| TextReader.WrapTextLinesSound | examples/ILI9488_TextReader.cpp:478-552 | For non-empty text, no line is empty. Every line fits, unless it is one word or one Chinese character. The lines hold the text's non-space bytes in order. No word is split: each word and each Chinese character a round reads lies whole inside one line, and a line wider than the width is exactly one of them. |
| TextReader.NextPos | examples/ILI9488_TextReader.cpp:502-545 | Each round moves the position forward: past the Chinese character, or past the word and one following space. |
| TextReader.StepPos | examples/ILI9488_TextReader.cpp:478-546 | The loop's new position does not depend on the widths: it is NextPos. |
| TextReader.RoundSlice | examples/ILI9488_TextReader.cpp:479-545 | A round consumes exactly its piece, and after a word at most the one space that follows it. |
| TextReader.RoundsTileText | examples/ILI9488_TextReader.cpp:478-546 | The rounds read the text to its end, each starting where the previous one stopped. |
| TextReader.WrapFromHoldsPieces | examples/ILI9488_TextReader.cpp:485-539 | Every piece a later round reads ends up whole inside one line. |
| TextReader.WrapFromKeepsHeld | examples/ILI9488_TextReader.cpp:488-552 | A run of bytes inside a line stays inside a line to the end: lines are only extended or closed. |
| TextReader.WrapFromWhole | examples/ILI9488_TextReader.cpp:488-552 | From a state whose lines fit or are one piece, every final line fits or is one piece. |
| TextReader.WrapFromKeeps | examples/ILI9488_TextReader.cpp:478-552 | From any loop state that keeps the invariant, the remaining lines are non-empty and fit or are a unit. Together with the lines so far, they keep the text's non-space bytes. |
| TextReader.WrapEmptyLine | examples/ILI9488_TextReader.cpp:470-473 | The result is the single empty line exactly when the text is empty. |
| TextReader.WrapSpacesOnly | examples/ILI9488_TextReader.cpp:541-552 | A text of spaces alone gives no lines. |
| TextReader.LinesPerPage | examples/ILI9488_TextReader.cpp:606-614 | 12 lines per page. |
| TextReader.EstimatedLines | examples/ILI9488_TextReader.cpp:617-624 | The line estimate stays below 2^32, so it cannot overflow a 32-bit size_t. |
| TextReader.EstimateTotalPages | examples/ILI9488_TextReader.cpp:604-630 | At least one page. Enough 12-line pages for the estimated lines, and no more. |
| TextReader.PageRange | examples/ILI9488_TextReader.cpp:326-329 | An accepted page is in [0, total). With the count taken from the page starts it accepts exactly [0, total). With no page starts size_t wraps and nothing is accepted. |
| PinConfig.Decimal | include/pin_config.hpp:171-174 | std::to_string gives non-empty digits, with no leading zero except for 0. |
| PinConfig.DecimalRoundTrip | include/pin_config.hpp:171-174 | Reading the digits back gives the number. |
| PinConfig.SdPresets | include/pin_config.hpp:156-238 | The default pins are valid. Every preset is valid exactly on the Pico, where the port is spi1. HIGH_SPEED changes only clk_fast, to 50 MHz; COMPATIBLE changes only the clocks, to 200 kHz and 20 MHz. |
| PinConfig.SdDefaultPinsDescription | include/pin_config.hpp:170-175 | The default pins are described as "MISO:11 CS:13 SCK:10 MOSI:12". |
| PinConfig.DescriptionInvalidIffNull | include/pin_config.hpp:262-277 | The description is "Invalid SPI Config" exactly when there is no instance. Otherwise it starts with "SPI1". |
| PinConfig.FactoriesInvalid | include/pin_config.hpp:255-304 | The constructor and both factories leave the instance null, so none is valid. With an instance set, both factories are. Compat halves both clocks, and both use the MicroSD pins. |

## Left out

- Platform calls are not modelled as such: spi_init, gpio set-up, the PWM
  slice, DMA channel configuration and interrupt registration. Only their
  effect on the pins and on the bus log is modelled.
- `dma_claim_unused_channel` is an input (`claimed`) of `Hal.Bus.WriteDataDma`.
- Hal.Bus.WaitDmaIdle: real interrupt concurrency is not modelled. The
  completion handler runs, as an explicit call, on the first turn of the
  spin.
- The delays are logged, and no time passes.
- `printf` progress and error messages are not modelled, including those of
  fill_area_rgb24.
- `rand()` is an oracle. Snake's values are supplied in advance to the
  class `Snake.Rand`. CollisionX's four values are parameters of
  `CollisionX.NewDot` and `CollisionX.WanderingDots.AddWanderingDot`.
- Snake.Game.GenerateFood requires that some attempt among the supplied
  rand() values lands off the body. Without one, the source loops forever.
- Gfx.DrawLine requires that the normalised end column is below 65535.
  Otherwise `x0 <= x1` always holds for a uint16_t and the source never
  returns.
- GfxTriangles.FillTriangle requires that the corners share a row or all lie
  above row 32767. Otherwise its int16_t row counter never passes the bottom
  row and the source never returns.
- Gfx.BresenhamEnds and Gfx.LineEndpoints state the end points only when the
  driving distance fits an int16_t. Beyond that, `dx` wraps.
- GfxTriangles.FlatRowSpan and GfxTriangles.TriangleRowShape state the span
  only for x below 2^15, where the int16_t a and b do not wrap. The methods
  themselves model the wrap.
- GfxCircles.CircleOnCircle, GfxCircles.FillCircleChords and GfxCircles.FillCircleColumns are stated only
  for r below 2^14 with the circle inside the 16-bit plane, where no int16_t
  or uint16_t value wraps.
- Fonts and text drawing (`ili9488_draw_string` and the font manager) are
  not modelled. In the text reader, `get_string_width` is the parameter
  `width`.
- The demo programs' drawing loops, the game main loops, the joystick
  direction logic and every floating-point routine are not modelled. The
  block-move bounds rule of CollisionX's main loop is `CollisionX.MoveBlock`.
- The SD-card file I/O of the text reader (`precalculate_page_positions` and
  the reading part of `load_page_content`) is not modelled. Only the
  page-range check is.
- GraphicsDemo.HsvToRgb: hsvToRgb565 is modelled up to the (r, g, b) handed
  to `rgb565::from_rgb888`, whose source is not part of this model.
- PinConfig.SdPresets: the `__PICO__` build flag is the parameter `onPico`.
- CollisionX.StampPositions.IsPositionOccupied: the source repeats
  checkStampCollision's loop line for line, so the model calls that method
  instead of repeating it.
- The C++ driver classes used by the games and the reader
  (`ILI9488Driver`, `PicoILI9488GFX`, `ili9488_colors`) are not part of this
  model.

## Findings

| source | as written | input that shows it | evidently intended | confidence | as-written member | corrected member |
|---|---|---|---|---|---|---|
| src/ili9488_gfx.c:263-268 | The fill_circle helper draws its spans with draw_hline, starting at (x0 ± x, y0 - y) and running 2y + 1 - delta pixels to the right. | fill_circle(100, 100, 10): right after the centre column it draws a 20-pixel row from (101, 90) to (120, 90), which ends 10 columns right of the circle. | Vertical spans (draw_vline) of 2y + 1 pixels from (x0 ± x, y0 - y), one chord of the disk per column, as in the quarter-circle fill the routine follows. GfxCircles.FillCircleColumns proves that every column then gets its full chord. | high, not executed | GfxCircles.FillCircleOverreach | GfxCircles.FillCircleChords |
