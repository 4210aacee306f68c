/** The panel driver (src/ili9488.c): the controller's command set, the pixel
    format conversions, the driver state and every drawing primitive that
    writes the controller's frame memory. */
module Driver {
  import opened Ints
  import opened Hal

  // Controller commands (include/ili9488.h:52-71).
  const NOP: u8 := 0x00
  const SWRESET: u8 := 0x01
  const RDDID: u8 := 0x04
  const SLPIN: u8 := 0x10
  const SLPOUT: u8 := 0x11
  const PTLON: u8 := 0x12
  const NORON: u8 := 0x13
  const INVOFF: u8 := 0x20
  const INVON: u8 := 0x21
  const DISPOFF: u8 := 0x28
  const DISPON: u8 := 0x29
  const CASET: u8 := 0x2A
  const PASET: u8 := 0x2B
  const RAMWR: u8 := 0x2C
  const RAMRD: u8 := 0x2E
  const PTLAR: u8 := 0x30
  const VSCRDEF: u8 := 0x33
  const MADCTL: u8 := 0x36
  const VSCRSADD: u8 := 0x37
  const PIXFMT: u8 := 0x3A
  // Vendor registers written by the start-up sequence under their raw codes:
  // VCOM control, power control 3, positive and negative gamma correction.
  const VCOMCTL: u8 := 0xC5
  const PWCTRL3: u8 := 0xC2
  const PGAMCTRL: u8 := 0xE0
  const NGAMCTRL: u8 := 0xE1

  // MADCTL bits (include/ili9488.h:74-79).
  const MADCTL_MY: bv8 := 0x80
  const MADCTL_MX: bv8 := 0x40
  const MADCTL_MV: bv8 := 0x20
  const MADCTL_ML: bv8 := 0x10
  const MADCTL_BGR: bv8 := 0x08
  const MADCTL_MH: bv8 := 0x04

  // Named colours, 24-bit values whose channels keep only the six bits the
  // panel uses (include/ili9488.h:42-49).
  const BLACK: u32 := 0x000000
  const WHITE: u32 := 0xFCFCFC
  const RED: u32 := 0xFC0000
  const GREEN: u32 := 0x00FC00
  const BLUE: u32 := 0x0000FC
  const YELLOW: u32 := 0xFCFC00
  const CYAN: u32 := 0x00FCFC
  const MAGENTA: u32 := 0xFC00FC

  /** The argument of ili9488_init (include/ili9488.h:18-36); the spi_inst_t
      handle is not modelled. */
  datatype DisplayConfig = DisplayConfig(
    spiSpeedHz: u32,
    pinDin: u8, pinSck: u8, pinCs: u8, pinDc: u8, pinReset: u8, pinBl: u8,
    width: u16, height: u16, rotation: u8)

  function HwOf(c: DisplayConfig): HwConfig
  {
    HwConfig(c.spiSpeedHz, c.pinDin, c.pinSck, c.pinCs, c.pinDc, c.pinReset, c.pinBl)
  }

  // ---------------------------------------------------------------------------
  // Pixels

  /** The three bytes the controller receives per pixel in 18-bit mode. */
  datatype Rgb = Rgb(r: u8, g: u8, b: u8)
  {
    function Bytes(): seq<u8> { [r, g, b] }
  }

  /** rgb565_to_rgb666: the 5-bit red and blue channels are widened to six
      bits by shifting left and copying their top bit into the new low bit;
      the 6-bit green channel passes through. */
  function Rgb565ToRgb666(color: u16): Rgb
  {
    var r5 := color / 0x800;
    var g6 := (color / 0x20) % 0x40;
    var b5 := color % 0x20;
    Rgb(r5 * 2 + r5 / 0x10, g6, b5 * 2 + b5 / 0x10)
  }

  /** A 5-bit field widened by copying its top bit. */
  lemma Widen5(f: nat)
    requires f < 0x20
    ensures var w := f * 2 + f / 0x10; w < 0x40 && w / 2 == f && w % 2 == f / 0x10 && w / 0x20 == f / 0x10
  {
    var t := f / 0x10;
    DivUnique(f, 0x10, if f < 0x10 then 0 else 1);
    var w := f * 2 + t;
    DivUnique(w, 2, f);
    DivUnique(w, 0x20, t);
  }

  /** The three fields of an RGB565 word. */
  lemma Fields565(color: u16)
    ensures color / 0x800 < 0x20 && color % 0x20 < 0x20
    ensures color == (color / 0x800) * 0x800 + ((color / 0x20) % 0x40) * 0x20 + color % 0x20
  {
    var q, b := color / 0x20, color % 0x20;
    var r, g := q / 0x40, q % 0x40;
    assert color == q * 0x20 + b;
    assert q == r * 0x40 + g;
    DivUnique(color, 0x800, r);
  }

  /** Each channel fits in six bits, carries its 5- or 6-bit source field in
      its top bits, and the red and blue low bits repeat the field's top bit. */
  lemma Rgb565Channels(color: u16)
    ensures var c := Rgb565ToRgb666(color);
      c.r < 0x40 && c.g < 0x40 && c.b < 0x40
      && c.r / 2 == color / 0x800 && c.g == (color / 0x20) % 0x40 && c.b / 2 == color % 0x20
      && c.r % 2 == c.r / 0x20 && c.b % 2 == c.b / 0x20
  {
    Fields565(color);
    Widen5(color / 0x800);
    Widen5(color % 0x20);
  }

  /** The RGB565 word a converted pixel came from. */
  function Pack565(c: Rgb): int
  {
    (c.r / 2) * 0x800 + c.g * 0x20 + c.b / 2
  }

  /** The conversion loses nothing: the original word is recovered. */
  lemma Rgb565RoundTrip(color: u16)
    ensures Pack565(Rgb565ToRgb666(color)) == color
  {
    Rgb565Channels(color);
    Fields565(color);
  }

  /** Full-scale white widens to full-scale 6-bit white. */
  lemma Rgb565White()
    ensures Rgb565ToRgb666(0xFFFF) == Rgb(0x3F, 0x3F, 0x3F)
  {
  }

  /** rgb24_to_rgb666: the three bytes of a 24-bit colour are sent unshifted,
      so the panel uses the top six bits of each. */
  function Rgb24ToRgb666(color24: u32): (c: Rgb)
    ensures c.r * 0x1_0000 + c.g * 0x100 + c.b == color24 % 0x100_0000
  {
    Bytes24(color24);
    Rgb((color24 / 0x1_0000) % 0x100, (color24 / 0x100) % 0x100, color24 % 0x100)
  }

  /** The named colours carry nothing in the two low bits of any channel, so
      no information is lost on the panel. */
  lemma NamedColoursUseSixBits(c: u32)
    requires c in {BLACK, WHITE, RED, GREEN, BLUE, YELLOW, CYAN, MAGENTA}
    ensures var p := Rgb24ToRgb666(c); p.r % 4 == 0 && p.g % 4 == 0 && p.b % 4 == 0
    ensures c == WHITE ==> Rgb24ToRgb666(c) == Rgb(0xFC, 0xFC, 0xFC)
  {
  }

  /** Concatenated bytes of a pixel sequence. */
  function Flatten(ps: seq<Rgb>): (bs: seq<u8>)
    ensures |bs| == 3 * |ps|
  {
    if ps == [] then [] else ps[0].Bytes() + Flatten(ps[1..])
  }

  lemma {:induction false} FlattenAppend(a: seq<Rgb>, b: seq<Rgb>)
    ensures Flatten(a + b) == Flatten(a) + Flatten(b)
  {
    if a == [] {
      assert a + b == b;
    } else {
      assert (a + b)[1..] == a[1..] + b;
      FlattenAppend(a[1..], b);
    }
  }

  /** Byte 3i+k of a flattened sequence is channel k of pixel i. */
  lemma {:induction false} FlattenIndex(ps: seq<Rgb>, i: nat, k: nat)
    requires i < |ps| && k < 3
    ensures Flatten(ps)[3 * i + k] == ps[i].Bytes()[k]
  {
    if i > 0 {
      FlattenIndex(ps[1..], i - 1, k);
    }
  }

  /** n copies of one pixel. */
  function Solid(px: Rgb, n: nat): (ps: seq<Rgb>)
    ensures |ps| == n && forall i :: 0 <= i < n ==> ps[i] == px
  {
    seq(n, _ => px)
  }

  /** The pixels of a colour array, converted from RGB565 one by one. */
  function Convert565(colors: seq<u16>): (t: seq<Rgb>)
    ensures |t| == |colors|
  {
    if colors == [] then [] else [Rgb565ToRgb666(colors[0])] + Convert565(colors[1..])
  }

  lemma {:induction false} Convert565Index(colors: seq<u16>, k: nat)
    requires k < |colors|
    ensures Convert565(colors)[k] == Rgb565ToRgb666(colors[k])
  {
    if k > 0 {
      Convert565Index(colors[1..], k - 1);
    }
  }

  function Convert24(colors: seq<u32>): (t: seq<Rgb>)
    ensures |t| == |colors|
  {
    if colors == [] then [] else [Rgb24ToRgb666(colors[0])] + Convert24(colors[1..])
  }

  lemma {:induction false} Convert24Index(colors: seq<u32>, k: nat)
    requires k < |colors|
    ensures Convert24(colors)[k] == Rgb24ToRgb666(colors[k])
  {
    if k > 0 {
      Convert24Index(colors[1..], k - 1);
    }
  }

  /** The colour index after k: one on, back to 0 past the end. */
  function NextIndex(len: nat, k: nat): (r: nat)
    requires k < len
    ensures r < len
  {
    if k + 1 == len then 0 else k + 1
  }

  /** The colour index after a steps from k. */
  function Advance(len: nat, k: nat, a: nat): (r: nat)
    requires k < len
    ensures r < len
  {
    if a == 0 then k else NextIndex(len, Advance(len, k, a - 1))
  }

  /** The C update `(color_idx + 1) % len` is NextIndex. */
  lemma NextIndexMod(len: nat, k: nat)
    requires k < len
    ensures NextIndex(len, k) == (k + 1) % len
  {
    if k + 1 == len {
      DivUnique(k + 1, len, 1);
    } else {
      DivUnique(k + 1, len, 0);
    }
  }

  /** a steps from k land on (k + a) mod len. */
  lemma {:induction false} AdvanceMod(len: nat, k: nat, a: nat)
    requires k < len
    ensures Advance(len, k, a) == (k + a) % len
  {
    if a == 0 {
      DivUnique(k, len, 0);
    } else {
      AdvanceMod(len, k, a - 1);
      NextIndexMod(len, Advance(len, k, a - 1));
      ModNext(k + a - 1, len);
    }
  }

  /** Taking the first step first. */
  lemma {:induction false} AdvanceShift(len: nat, k: nat, a: nat)
    requires k < len
    ensures Advance(len, NextIndex(len, k), a) == Advance(len, k, a + 1)
  {
    if a > 0 {
      AdvanceShift(len, k, a - 1);
    }
  }

  /** n entries of a table read cyclically from index `start`. */
  function CycleFrom(table: seq<Rgb>, start: nat, n: nat): (ps: seq<Rgb>)
    requires start < |table|
    ensures |ps| == n
    decreases n
  {
    if n == 0 then [] else [table[start]] + CycleFrom(table, NextIndex(|table|, start), n - 1)
  }

  /** The pixels of an n-pixel area written from a colour array that is
      reused from its first entry whenever it runs out. */
  function Cycle565(colors: seq<u16>, n: nat): (ps: seq<Rgb>)
    requires colors != []
    ensures |ps| == n
  {
    CycleFrom(Convert565(colors), 0, n)
  }

  function Cycle24(colors: seq<u32>, n: nat): (ps: seq<Rgb>)
    requires colors != []
    ensures |ps| == n
  {
    CycleFrom(Convert24(colors), 0, n)
  }

  /** Pixels sent as buffer writes of at most k pixels each. k = 1 is a
      pixel-by-pixel loop. */
  function PixelBatches(ps: seq<Rgb>, k: nat): seq<Event>
    requires k >= 1
    decreases |ps|
  {
    if ps == [] then []
    else
      var n := Min(|ps|, k);
      BufferEvents(Flatten(ps[..n])) + PixelBatches(ps[n..], k)
  }

  /** However the pixels are batched, the controller receives exactly their
      bytes in data mode. */
  lemma {:induction false} PixelBatchesWire(ps: seq<Rgb>, k: nat)
    requires k >= 1
    ensures Wire(PixelBatches(ps, k)) == DataWords(Flatten(ps))
    decreases |ps|
  {
    if ps != [] {
      var n := Min(|ps|, k);
      var a, b := ps[..n], ps[n..];
      var head, tail := BufferEvents(Flatten(a)), PixelBatches(b, k);
      calc {
        Wire(PixelBatches(ps, k));
      == { assert PixelBatches(ps, k) == head + tail; WireAppend(head, tail); }
        Wire(head) + Wire(tail);
      == { BufferWire(Flatten(a)); PixelBatchesWire(b, k); }
        DataWords(Flatten(a)) + DataWords(Flatten(b));
      == { TaggedAppend(true, Flatten(a), Flatten(b)); }
        DataWords(Flatten(a) + Flatten(b));
      == { assert ps == a + b; FlattenAppend(a, b); }
        DataWords(Flatten(ps));
      }
    }
  }

  /** Batch sizes are invisible on the wire. */
  lemma BatchingInvisible(ps: seq<Rgb>, j: nat, k: nat)
    requires j >= 1 && k >= 1
    ensures Wire(PixelBatches(ps, j)) == Wire(PixelBatches(ps, k))
  {
    PixelBatchesWire(ps, j);
    PixelBatchesWire(ps, k);
  }

  lemma SolidSplit(px: Rgb, n: nat, k: nat)
    requires k <= n
    ensures Solid(px, n)[..k] == Solid(px, k) && Solid(px, n)[k..] == Solid(px, n - k)
  {
  }

  /** The first batch of n copies of a pixel. */
  lemma SolidBatchStep(px: Rgb, n: nat, k: nat)
    requires n >= 1 && k >= 1
    ensures PixelBatches(Solid(px, n), k)
      == BufferEvents(Flatten(Solid(px, Min(n, k)))) + PixelBatches(Solid(px, n - Min(n, k)), k)
  {
    SolidSplit(px, n, Min(n, k));
  }

  lemma FlattenOne(px: Rgb)
    ensures Flatten(Solid(px, 1)) == px.Bytes()
  {
    assert Solid(px, 1)[1..] == [];
  }

  /** One more copy appends that pixel's bytes. */
  lemma SolidSnoc(px: Rgb, n: nat)
    ensures Flatten(Solid(px, n + 1)) == Flatten(Solid(px, n)) + px.Bytes()
  {
    assert Solid(px, n + 1) == Solid(px, n) + Solid(px, 1);
    FlattenAppend(Solid(px, n), Solid(px, 1));
    FlattenOne(px);
  }

  /** The first 3k bytes of n copies are k copies. */
  lemma SolidPrefix(px: Rgb, n: nat, k: nat)
    requires k <= n
    ensures Flatten(Solid(px, n))[..3 * k] == Flatten(Solid(px, k))
  {
    assert Solid(px, n) == Solid(px, k) + Solid(px, n - k);
    FlattenAppend(Solid(px, k), Solid(px, n - k));
  }

  /** Reading a + b entries is reading a, then b from where the index got to. */
  lemma {:induction false} CycleFromSplit(table: seq<Rgb>, start: nat, a: nat, b: nat)
    requires start < |table|
    ensures CycleFrom(table, start, a + b) == CycleFrom(table, start, a) + CycleFrom(table, Advance(|table|, start, a), b)
    decreases a
  {
    var len := |table|;
    if a == 0 {
      assert CycleFrom(table, start, a) == [];
    } else {
      var next := NextIndex(len, start);
      var head, mid := [table[start]], CycleFrom(table, next, a - 1);
      var tail := CycleFrom(table, Advance(len, next, a - 1), b);
      CycleFromSplit(table, next, a - 1, b);
      AdvanceShift(len, start, a - 1);
      assert CycleFrom(table, start, a + b) == head + (mid + tail);
      assert CycleFrom(table, start, a) == head + mid;
      AppendAssoc(head, mid, tail);
    }
  }

  /** Entry i of a cyclic read is table entry (start + i) mod len. */
  lemma {:induction false} CycleFromIndex(table: seq<Rgb>, start: nat, n: nat, i: nat)
    requires start < |table| && i < n
    ensures CycleFrom(table, start, n)[i] == table[(start + i) % |table|]
    decreases i
  {
    if i == 0 {
      DivUnique(start, |table|, 0);
    } else {
      var next := NextIndex(|table|, start);
      CycleFromIndex(table, next, n - 1, i - 1);
      NextIndexMod(|table|, start);
      ModAdd(start + 1, i - 1, |table|);
    }
  }

  /** ili9488_write_pixels reuses the colour array cyclically: pixel i of the
      area has colour entry i mod len. */
  lemma Cycle565Index(colors: seq<u16>, n: nat, i: nat)
    requires colors != [] && i < n
    ensures Cycle565(colors, n)[i] == Rgb565ToRgb666(colors[i % |colors|])
  {
    CycleFromIndex(Convert565(colors), 0, n, i);
    Convert565Index(colors, i % |colors|);
  }

  lemma Cycle24Index(colors: seq<u32>, n: nat, i: nat)
    requires colors != [] && i < n
    ensures Cycle24(colors, n)[i] == Rgb24ToRgb666(colors[i % |colors|])
  {
    CycleFromIndex(Convert24(colors), 0, n, i);
    Convert24Index(colors, i % |colors|);
  }

  /** One more entry of a cyclic read adds that entry's bytes. */
  lemma CycleFromSnoc(table: seq<Rgb>, start: nat, i: nat)
    requires start < |table|
    ensures Flatten(CycleFrom(table, start, i + 1)) == Flatten(CycleFrom(table, start, i)) + table[Advance(|table|, start, i)].Bytes()
  {
    var x := Advance(|table|, start, i);
    CycleFromSplit(table, start, i, 1);
    assert CycleFrom(table, x, 1) == [table[x]];
    FlattenAppend(CycleFrom(table, start, i), [table[x]]);
    assert [table[x]][1..] == [];
  }

  /** One buffer of the write loop: min(32, rest) entries. */
  lemma CycleBatchStep(table: seq<Rgb>, start: nat, rest: nat, n: nat)
    requires start < |table| && rest >= 1 && n == Min(rest, 32)
    ensures PixelBatches(CycleFrom(table, start, rest), 32)
      == BufferEvents(Flatten(CycleFrom(table, start, n))) + PixelBatches(CycleFrom(table, Advance(|table|, start, n), rest - n), 32)
  {
    var a, b := CycleFrom(table, start, n), CycleFrom(table, Advance(|table|, start, n), rest - n);
    CycleFromSplit(table, start, n, rest - n);
    assert (a + b)[..n] == a;
    assert (a + b)[n..] == b;
  }

  // ---------------------------------------------------------------------------
  // Addressing

  /** A command followed by two 16-bit bounds, each high byte first: the
      shape of CASET, PASET and PTLAR. */
  function RangeEvents(c: u8, lo: u16, hi: u16): seq<Event>
  {
    CmdEvents(c) + DataEvents(lo / 0x100) + DataEvents(lo % 0x100) + DataEvents(hi / 0x100) + DataEvents(hi % 0x100)
  }

  function RangeWords(c: u8, lo: u16, hi: u16): seq<Word>
  {
    [Command(c), Data(lo / 0x100), Data(lo % 0x100), Data(hi / 0x100), Data(hi % 0x100)]
  }

  lemma RangeWire(c: u8, lo: u16, hi: u16)
    ensures Wire(RangeEvents(c, lo, hi)) == RangeWords(c, lo, hi)
  {
    CmdWire(c);
    var l0 := CmdEvents(c);
    WireDataSnoc(l0, lo / 0x100); var l1 := l0 + DataEvents(lo / 0x100);
    WireDataSnoc(l1, lo % 0x100); var l2 := l1 + DataEvents(lo % 0x100);
    WireDataSnoc(l2, hi / 0x100); var l3 := l2 + DataEvents(hi / 0x100);
    WireDataSnoc(l3, hi % 0x100);
  }

  /** ili9488_set_window: column range, row range, then memory write. */
  function WindowEvents(x0: u16, y0: u16, x1: u16, y1: u16): seq<Event>
  {
    RangeEvents(CASET, x0, x1) + RangeEvents(PASET, y0, y1) + CmdEvents(RAMWR)
  }

  function BigEndian(hi: Word, lo: Word): u16 { hi.b * 0x100 + lo.b }

  function IsData(w: Word): bool { w.Data? }

  /** The window a controller would latch from an address-set word stream. */
  function DecodeWindow(w: seq<Word>): Option<(u16, u16, u16, u16)>
  {
    if |w| == 11 && w[0] == Command(CASET) && w[5] == Command(PASET) && w[10] == Command(RAMWR)
       && IsData(w[1]) && IsData(w[2]) && IsData(w[3]) && IsData(w[4])
       && IsData(w[6]) && IsData(w[7]) && IsData(w[8]) && IsData(w[9])
    then Some((BigEndian(w[1], w[2]), BigEndian(w[6], w[7]), BigEndian(w[3], w[4]), BigEndian(w[8], w[9])))
    else None
  }

  /** The address-set words of a window. */
  function WindowWords(x0: u16, y0: u16, x1: u16, y1: u16): seq<Word>
  {
    RangeWords(CASET, x0, x1) + RangeWords(PASET, y0, y1) + [Command(RAMWR)]
  }

  lemma WindowWire(x0: u16, y0: u16, x1: u16, y1: u16)
    ensures Wire(WindowEvents(x0, y0, x1, y1)) == WindowWords(x0, y0, x1, y1)
  {
    var cols, rows := RangeEvents(CASET, x0, x1), RangeEvents(PASET, y0, y1);
    WireAppend(cols + rows, CmdEvents(RAMWR));
    WireAppend(cols, rows);
    RangeWire(CASET, x0, x1);
    RangeWire(PASET, y0, y1);
    CmdWire(RAMWR);
  }

  /** The controller latches exactly the requested window. */
  lemma WindowRoundTrip(x0: u16, y0: u16, x1: u16, y1: u16)
    ensures DecodeWindow(Wire(WindowEvents(x0, y0, x1, y1))) == Some((x0, y0, x1, y1))
  {
    WindowWire(x0, y0, x1, y1);
    var w := WindowWords(x0, y0, x1, y1);
    assert BigEndian(w[1], w[2]) == x0 && BigEndian(w[3], w[4]) == x1;
    assert BigEndian(w[6], w[7]) == y0 && BigEndian(w[8], w[9]) == y1;
  }

  /** ili9488_draw_pixel / draw_pixel_rgb24: nothing outside the panel,
      otherwise a one-pixel window and the pixel's three bytes. */
  function PixelEvents(x: u16, y: u16, px: Rgb, width: u16, height: u16): seq<Event>
  {
    if x >= width || y >= height then [] else WindowEvents(x, y, x, y) + BufferEvents(px.Bytes())
  }

  lemma PixelWire(x: u16, y: u16, px: Rgb, width: u16, height: u16)
    ensures x >= width || y >= height ==> Wire(PixelEvents(x, y, px, width, height)) == []
    ensures x < width && y < height ==>
      var w := Wire(PixelEvents(x, y, px, width, height));
      |w| == 14 && DecodeWindow(w[..11]) == Some((x, y, x, y)) && w[11..] == DataWords(px.Bytes())
  {
    if x < width && y < height {
      WireAppend(WindowEvents(x, y, x, y), BufferEvents(px.Bytes()));
      WindowRoundTrip(x, y, x, y);
      BufferWire(px.Bytes());
      var w := Wire(PixelEvents(x, y, px, width, height));
      assert w[..11] == Wire(WindowEvents(x, y, x, y));
    }
  }

  // ---------------------------------------------------------------------------
  // Orientation

  /** Panel dimensions for a rotation (width, height). */
  function Dimensions(rotation: int): (u16, u16)
  {
    if rotation % 2 == 0 then (320, 480) else (480, 320)
  }

  /** The MADCTL value ili9488_set_rotation selects for rotation mod 4. */
  function MadctlFor(rotation: u8): bv8
  {
    match rotation % 4
    case 0 => MADCTL_MX | MADCTL_BGR
    case 1 => MADCTL_MV | MADCTL_BGR
    case 2 => MADCTL_MY | MADCTL_BGR
    case _ => MADCTL_MX | MADCTL_MY | MADCTL_MV | MADCTL_BGR
  }

  /** The four orientations: BGR order in all of them, row/column exchange
      exactly in the landscape ones, and a distinct register value each. */
  lemma MadctlOrientation(rotation: u8)
    ensures MadctlFor(rotation) & MADCTL_BGR != 0
    ensures (MadctlFor(rotation) & MADCTL_MV != 0) <==> Dimensions(rotation % 4).0 == 480
    ensures MadctlFor(rotation) as int == [0x48, 0x28, 0x88, 0xE8][rotation % 4]
  {
  }

  function RotationEvents(rotation: u8): seq<Event>
  {
    CmdEvents(MADCTL) + DataEvents(MadctlFor(rotation) as u8)
  }

  /** ili9488_set_partial_area: nothing when a bound is off the panel,
      otherwise PTLAR with the ordered row range. */
  function PartialAreaEvents(x0: u16, y0: u16, x1: u16, y1: u16, width: u16, height: u16): seq<Event>
  {
    if x0 >= width || y0 >= height || x1 >= width || y1 >= height then []
    else
      RangeEvents(PTLAR, Min(y0, y1), Max(y0, y1))
  }

  /** The partial area the controller receives is the ordered row range, both
      rows on the panel. */
  lemma PartialAreaWire(x0: u16, y0: u16, x1: u16, y1: u16, width: u16, height: u16)
    ensures x0 >= width || y0 >= height || x1 >= width || y1 >= height ==>
      PartialAreaEvents(x0, y0, x1, y1, width, height) == []
    ensures !(x0 >= width || y0 >= height || x1 >= width || y1 >= height) ==>
      var w := Wire(PartialAreaEvents(x0, y0, x1, y1, width, height));
      |w| == 5 && w[0] == Command(PTLAR) && IsData(w[1]) && IsData(w[2]) && IsData(w[3]) && IsData(w[4])
      && BigEndian(w[1], w[2]) == Min(y0, y1) && BigEndian(w[3], w[4]) == Max(y0, y1)
      && BigEndian(w[1], w[2]) <= BigEndian(w[3], w[4]) < height
  {
    if !(x0 >= width || y0 >= height || x1 >= width || y1 >= height) {
      RangeWire(PTLAR, Min(y0, y1), Max(y0, y1));
    }
  }

  // ---------------------------------------------------------------------------
  // Area fills

  /** The pixel count of the window (x0, y0)-(x1, y1), in int arithmetic. */
  function Area(x0: int, y0: int, x1: int, y1: int): (a: int)
    ensures x0 <= x1 && y0 <= y1 ==> a >= 1
  {
    if x0 <= x1 && y0 <= y1 then MulAtLeast(x1 - x0 + 1, y1 - y0 + 1); (x1 - x0 + 1) * (y1 - y0 + 1)
    else (x1 - x0 + 1) * (y1 - y0 + 1)
  }

  /** The pixel count as the uint32_t arithmetic computes it. */
  function AreaU32(x0: u16, y0: u16, x1: u16, y1: u16): u32
  {
    U32(Area(x0, y0, x1, y1))
  }

  /** ili9488_fill_area: bounds are ordered first; up to 256 pixels go one
      buffer write per pixel, larger areas in buffers of 256 pixels. */
  function FillAreaEvents(x0: u16, y0: u16, x1: u16, y1: u16, px: Rgb): seq<Event>
  {
    var left, right := Min(x0, x1), Max(x0, x1);
    var top, bottom := Min(y0, y1), Max(y0, y1);
    var n := AreaU32(left, top, right, bottom);
    WindowEvents(left, top, right, bottom)
      + (if n <= 256 then PixelBatches(Solid(px, n), 1) else PixelBatches(Solid(px, n), 256))
  }

  /** The wire image of a window followed by pixel data. */
  lemma WindowThenPixels(x0: u16, y0: u16, x1: u16, y1: u16, tail: seq<Event>, ps: seq<Rgb>)
    requires Wire(tail) == DataWords(Flatten(ps))
    ensures var w := Wire(WindowEvents(x0, y0, x1, y1) + tail);
      |w| >= 11 && DecodeWindow(w[..11]) == Some((x0, y0, x1, y1)) && w[11..] == DataWords(Flatten(ps))
  {
    WireAppend(WindowEvents(x0, y0, x1, y1), tail);
    WindowRoundTrip(x0, y0, x1, y1);
    var w := Wire(WindowEvents(x0, y0, x1, y1) + tail);
    assert w[..11] == Wire(WindowEvents(x0, y0, x1, y1));
  }

  /** A fill sends the ordered window and then the colour once per pixel of
      the window. */
  lemma FillAreaWire(x0: u16, y0: u16, x1: u16, y1: u16, px: Rgb)
    ensures var w := Wire(FillAreaEvents(x0, y0, x1, y1, px));
      |w| >= 11 && DecodeWindow(w[..11]) == Some((Min(x0, x1), Min(y0, y1), Max(x0, x1), Max(y0, y1)))
      && w[11..] == DataWords(Flatten(Solid(px, AreaU32(Min(x0, x1), Min(y0, y1), Max(x0, x1), Max(y0, y1)))))
  {
    var left, right := Min(x0, x1), Max(x0, x1);
    var top, bottom := Min(y0, y1), Max(y0, y1);
    var n := AreaU32(left, top, right, bottom);
    PixelBatchesWire(Solid(px, n), 1);
    PixelBatchesWire(Solid(px, n), 256);
    var tail := if n <= 256 then PixelBatches(Solid(px, n), 1) else PixelBatches(Solid(px, n), 256);
    WindowThenPixels(left, top, right, bottom, tail, Solid(px, n));
  }

  /** The uint32_t count of an ordered window is its true area, except when
      the window spans the whole 16-bit range in both directions, where it
      wraps to zero. */
  lemma FillAreaCount(x0: u16, y0: u16, x1: u16, y1: u16)
    ensures AreaU32(Min(x0, x1), Min(y0, y1), Max(x0, x1), Max(y0, y1))
      == if Abs(x1 - x0) == 0xFFFF && Abs(y1 - y0) == 0xFFFF then 0 else (Abs(x1 - x0) + 1) * (Abs(y1 - y0) + 1)
  {
    var a, b := Max(x0, x1) - Min(x0, x1) + 1, Max(y0, y1) - Min(y0, y1) + 1;
    assert a == Abs(x1 - x0) + 1 && b == Abs(y1 - y0) + 1;
    AreaProduct(a, b);
  }

  lemma AreaProduct(a: int, b: int)
    requires 1 <= a <= 0x1_0000 && 1 <= b <= 0x1_0000
    ensures a * b <= 0x1_0000_0000
    ensures a * b == 0x1_0000_0000 <==> a == 0x1_0000 && b == 0x1_0000
  {
    MulLe(a, b, 0x1_0000);
    MulLe(b, 0x1_0000, 0x1_0000);
    if a < 0x1_0000 {
      MulLe(a, b, 0xFFFF);
      MulLe(b, 0xFFFF, 0x1_0000);
    } else if b < 0x1_0000 {
      MulLe(b, a, 0xFFFF);
    }
  }

  /** ili9488_fill_area_rgb24: nothing when a bound is off the panel,
      otherwise the ordered window and buffers of 128 pixels. */
  function FillAreaRgb24Events(x0: u16, y0: u16, x1: u16, y1: u16, px: Rgb, width: u16, height: u16): seq<Event>
  {
    if x0 >= width || y0 >= height || x1 >= width || y1 >= height then []
    else
      var left, right := Min(x0, x1), Max(x0, x1);
      var top, bottom := Min(y0, y1), Max(y0, y1);
      WindowEvents(left, top, right, bottom)
        + PixelBatches(Solid(px, Area(left, top, right, bottom)), 128)
  }

  lemma FillAreaRgb24Wire(x0: u16, y0: u16, x1: u16, y1: u16, px: Rgb, width: u16, height: u16)
    ensures x0 >= width || y0 >= height || x1 >= width || y1 >= height ==>
      FillAreaRgb24Events(x0, y0, x1, y1, px, width, height) == []
    ensures !(x0 >= width || y0 >= height || x1 >= width || y1 >= height) ==>
      var w := Wire(FillAreaRgb24Events(x0, y0, x1, y1, px, width, height));
      |w| >= 11 && DecodeWindow(w[..11]) == Some((Min(x0, x1), Min(y0, y1), Max(x0, x1), Max(y0, y1)))
      && w[11..] == DataWords(Flatten(Solid(px, Area(Min(x0, x1), Min(y0, y1), Max(x0, x1), Max(y0, y1)))))
  {
    if !(x0 >= width || y0 >= height || x1 >= width || y1 >= height) {
      var left, right := Min(x0, x1), Max(x0, x1);
      var top, bottom := Min(y0, y1), Max(y0, y1);
      var n := Area(left, top, right, bottom);
      PixelBatchesWire(Solid(px, n), 128);
      WindowThenPixels(left, top, right, bottom, PixelBatches(Solid(px, n), 128), Solid(px, n));
    }
  }

  /** ili9488_write_pixels / write_pixels_rgb24 with a non-empty colour
      array: the window as given (bounds are not ordered), then the pixels in
      buffers of 32. */
  function WritePixelsEvents(x0: u16, y0: u16, x1: u16, y1: u16, ps: seq<Rgb>): seq<Event>
  {
    WindowEvents(x0, y0, x1, y1) + PixelBatches(ps, 32)
  }

  /** The controller receives the window and then exactly the pixels' bytes. */
  lemma WritePixelsWire(x0: u16, y0: u16, x1: u16, y1: u16, ps: seq<Rgb>)
    ensures var w := Wire(WritePixelsEvents(x0, y0, x1, y1, ps));
      |w| >= 11 && DecodeWindow(w[..11]) == Some((x0, y0, x1, y1)) && w[11..] == DataWords(Flatten(ps))
  {
    PixelBatchesWire(ps, 32);
    WindowThenPixels(x0, y0, x1, y1, PixelBatches(ps, 32), ps);
  }

  /** Because the bounds are not ordered, a reversed window makes the
      uint32_t pixel count wrap: x1 = x0 - 2 on a one-row window asks for
      2^32 - 1 pixels. */
  lemma WritePixelsReversedArea(x0: u16, y0: u16)
    requires x0 >= 2
    ensures AreaU32(x0, y0, x0 - 2, y0) == 0xFFFF_FFFF
    ensures AreaU32(x0, y0, x0 - 1, y0) == 0
  {
  }

  // ---------------------------------------------------------------------------
  // Start-up

  /** The log after the first part of ili9488_init_sequence: software reset,
      sleep out, scan direction, pixel format, VCOM and power control. */
  function InitHeadLog(log: seq<Event>): seq<Event>
  {
    log + CmdEvents(SWRESET) + [Sleep(200)]
    + CmdEvents(SLPOUT) + [Sleep(200)]
    + CmdEvents(MADCTL) + DataEvents(0x48)
    + CmdEvents(PIXFMT) + DataEvents(0x66)
    + CmdEvents(VCOMCTL) + DataEvents(0x00) + DataEvents(0x36) + DataEvents(0x80)
    + CmdEvents(PWCTRL3) + DataEvents(0xA7)
  }

  /** The log after the positive gamma table. */
  function PositiveGammaLog(log: seq<Event>): seq<Event>
  {
    log + CmdEvents(PGAMCTRL) + DataEvents(0xF0) + DataEvents(0x01) + DataEvents(0x06) + DataEvents(0x0F) + DataEvents(0x12) + DataEvents(0x1D) + DataEvents(0x36)
    + DataEvents(0x54) + DataEvents(0x44) + DataEvents(0x0C) + DataEvents(0x18) + DataEvents(0x16) + DataEvents(0x13) + DataEvents(0x15)
  }

  /** The log after the negative gamma table. */
  function NegativeGammaLog(log: seq<Event>): seq<Event>
  {
    log + CmdEvents(NGAMCTRL) + DataEvents(0xF0) + DataEvents(0x01) + DataEvents(0x05) + DataEvents(0x0A) + DataEvents(0x0B) + DataEvents(0x07) + DataEvents(0x32)
    + DataEvents(0x44) + DataEvents(0x44) + DataEvents(0x0C) + DataEvents(0x18) + DataEvents(0x17) + DataEvents(0x13) + DataEvents(0x16)
  }

  /** The log after inversion on and display on. */
  function DisplayOnLog(log: seq<Event>): seq<Event>
  {
    log + CmdEvents(INVON) + CmdEvents(DISPON) + [Sleep(50)]
  }

  /** The log after the first k stages of ili9488_init_sequence. */
  function InitStages(log: seq<Event>, k: nat): seq<Event>
    decreases k
  {
    if k == 0 then log
    else if k == 1 then InitHeadLog(log)
    else if k == 2 then PositiveGammaLog(InitStages(log, 1))
    else if k == 3 then NegativeGammaLog(InitStages(log, 2))
    else DisplayOnLog(InitStages(log, 3))
  }

  /** The log after ili9488_init_sequence has run on top of `log`. */
  function InitSequenceLog(log: seq<Event>): seq<Event>
  {
    InitStages(log, 4)
  }

  /** The four stages one after another are the whole sequence. */
  lemma InitSequenceStages(log: seq<Event>)
    ensures InitSequenceLog(log) == DisplayOnLog(NegativeGammaLog(PositiveGammaLog(InitHeadLog(log))))
  {
    assert InitStages(log, 1) == InitHeadLog(log);
    assert InitStages(log, 2) == PositiveGammaLog(InitStages(log, 1));
    assert InitStages(log, 3) == NegativeGammaLog(InitStages(log, 2));
  }

  /** The words of the first stage: reset, wake, scan direction, 18-bit pixel format,
      VCOM and power control. */
  const INIT_HEAD_WORDS: seq<Word> := [
    Command(SWRESET), Command(SLPOUT), Command(MADCTL), Data(0x48), Command(PIXFMT), Data(0x66), Command(VCOMCTL), Data(0x00),
    Data(0x36), Data(0x80), Command(PWCTRL3), Data(0xA7)
  ]

  /** INIT_HEAD_WORDS written as one word after another. */
  lemma InitHeadWords(w: seq<Word>)
    ensures w + [Command(SWRESET)] + [Command(SLPOUT)] + [Command(MADCTL)] + [Data(0x48)] + [Command(PIXFMT)] + [Data(0x66)] + [Command(VCOMCTL)] + [Data(0x00)]
      + [Data(0x36)] + [Data(0x80)] + [Command(PWCTRL3)] + [Data(0xA7)] == w + INIT_HEAD_WORDS
  {
  }

  /** InitHeadLog on the wire: INIT_HEAD_WORDS, pin toggles and delays dropped. */
  lemma InitHeadWire(log: seq<Event>)
    ensures Wire(InitHeadLog(log)) == Wire(log) + INIT_HEAD_WORDS
  {
    WireCmdSnoc(log, SWRESET); var l0 := log + CmdEvents(SWRESET);
    WireSleepSnoc(l0, 200); var l1 := l0 + [Sleep(200)];
    WireCmdSnoc(l1, SLPOUT); var l2 := l1 + CmdEvents(SLPOUT);
    WireSleepSnoc(l2, 200); var l3 := l2 + [Sleep(200)];
    WireCmdSnoc(l3, MADCTL); var l4 := l3 + CmdEvents(MADCTL);
    WireDataSnoc(l4, 0x48); var l5 := l4 + DataEvents(0x48);
    WireCmdSnoc(l5, PIXFMT); var l6 := l5 + CmdEvents(PIXFMT);
    WireDataSnoc(l6, 0x66); var l7 := l6 + DataEvents(0x66);
    WireCmdSnoc(l7, VCOMCTL); var l8 := l7 + CmdEvents(VCOMCTL);
    WireDataSnoc(l8, 0x00); var l9 := l8 + DataEvents(0x00);
    WireDataSnoc(l9, 0x36); var l10 := l9 + DataEvents(0x36);
    WireDataSnoc(l10, 0x80); var l11 := l10 + DataEvents(0x80);
    WireCmdSnoc(l11, PWCTRL3); var l12 := l11 + CmdEvents(PWCTRL3);
    WireDataSnoc(l12, 0xA7);
    InitHeadWords(Wire(log));
  }

  /** The words of the positive gamma table. */
  const POSITIVE_GAMMA_WORDS: seq<Word> := [
    Command(PGAMCTRL), Data(0xF0), Data(0x01), Data(0x06), Data(0x0F), Data(0x12), Data(0x1D), Data(0x36),
    Data(0x54), Data(0x44), Data(0x0C), Data(0x18), Data(0x16), Data(0x13), Data(0x15)
  ]

  /** POSITIVE_GAMMA_WORDS written as one word after another. */
  lemma PositiveGammaWords(w: seq<Word>)
    ensures w + [Command(PGAMCTRL)] + [Data(0xF0)] + [Data(0x01)] + [Data(0x06)] + [Data(0x0F)] + [Data(0x12)] + [Data(0x1D)] + [Data(0x36)]
      + [Data(0x54)] + [Data(0x44)] + [Data(0x0C)] + [Data(0x18)] + [Data(0x16)] + [Data(0x13)] + [Data(0x15)] == w + POSITIVE_GAMMA_WORDS
  {
  }

  /** PositiveGammaLog on the wire: POSITIVE_GAMMA_WORDS, pin toggles and delays dropped. */
  lemma PositiveGammaWire(log: seq<Event>)
    ensures Wire(PositiveGammaLog(log)) == Wire(log) + POSITIVE_GAMMA_WORDS
  {
    WireCmdSnoc(log, PGAMCTRL); var l0 := log + CmdEvents(PGAMCTRL);
    WireDataSnoc(l0, 0xF0); var l1 := l0 + DataEvents(0xF0);
    WireDataSnoc(l1, 0x01); var l2 := l1 + DataEvents(0x01);
    WireDataSnoc(l2, 0x06); var l3 := l2 + DataEvents(0x06);
    WireDataSnoc(l3, 0x0F); var l4 := l3 + DataEvents(0x0F);
    WireDataSnoc(l4, 0x12); var l5 := l4 + DataEvents(0x12);
    WireDataSnoc(l5, 0x1D); var l6 := l5 + DataEvents(0x1D);
    WireDataSnoc(l6, 0x36); var l7 := l6 + DataEvents(0x36);
    WireDataSnoc(l7, 0x54); var l8 := l7 + DataEvents(0x54);
    WireDataSnoc(l8, 0x44); var l9 := l8 + DataEvents(0x44);
    WireDataSnoc(l9, 0x0C); var l10 := l9 + DataEvents(0x0C);
    WireDataSnoc(l10, 0x18); var l11 := l10 + DataEvents(0x18);
    WireDataSnoc(l11, 0x16); var l12 := l11 + DataEvents(0x16);
    WireDataSnoc(l12, 0x13); var l13 := l12 + DataEvents(0x13);
    WireDataSnoc(l13, 0x15);
    PositiveGammaWords(Wire(log));
  }

  /** The words of the negative gamma table. */
  const NEGATIVE_GAMMA_WORDS: seq<Word> := [
    Command(NGAMCTRL), Data(0xF0), Data(0x01), Data(0x05), Data(0x0A), Data(0x0B), Data(0x07), Data(0x32),
    Data(0x44), Data(0x44), Data(0x0C), Data(0x18), Data(0x17), Data(0x13), Data(0x16)
  ]

  /** NEGATIVE_GAMMA_WORDS written as one word after another. */
  lemma NegativeGammaWords(w: seq<Word>)
    ensures w + [Command(NGAMCTRL)] + [Data(0xF0)] + [Data(0x01)] + [Data(0x05)] + [Data(0x0A)] + [Data(0x0B)] + [Data(0x07)] + [Data(0x32)]
      + [Data(0x44)] + [Data(0x44)] + [Data(0x0C)] + [Data(0x18)] + [Data(0x17)] + [Data(0x13)] + [Data(0x16)] == w + NEGATIVE_GAMMA_WORDS
  {
  }

  /** NegativeGammaLog on the wire: NEGATIVE_GAMMA_WORDS, pin toggles and delays dropped. */
  lemma NegativeGammaWire(log: seq<Event>)
    ensures Wire(NegativeGammaLog(log)) == Wire(log) + NEGATIVE_GAMMA_WORDS
  {
    WireCmdSnoc(log, NGAMCTRL); var l0 := log + CmdEvents(NGAMCTRL);
    WireDataSnoc(l0, 0xF0); var l1 := l0 + DataEvents(0xF0);
    WireDataSnoc(l1, 0x01); var l2 := l1 + DataEvents(0x01);
    WireDataSnoc(l2, 0x05); var l3 := l2 + DataEvents(0x05);
    WireDataSnoc(l3, 0x0A); var l4 := l3 + DataEvents(0x0A);
    WireDataSnoc(l4, 0x0B); var l5 := l4 + DataEvents(0x0B);
    WireDataSnoc(l5, 0x07); var l6 := l5 + DataEvents(0x07);
    WireDataSnoc(l6, 0x32); var l7 := l6 + DataEvents(0x32);
    WireDataSnoc(l7, 0x44); var l8 := l7 + DataEvents(0x44);
    WireDataSnoc(l8, 0x44); var l9 := l8 + DataEvents(0x44);
    WireDataSnoc(l9, 0x0C); var l10 := l9 + DataEvents(0x0C);
    WireDataSnoc(l10, 0x18); var l11 := l10 + DataEvents(0x18);
    WireDataSnoc(l11, 0x17); var l12 := l11 + DataEvents(0x17);
    WireDataSnoc(l12, 0x13); var l13 := l12 + DataEvents(0x13);
    WireDataSnoc(l13, 0x16);
    NegativeGammaWords(Wire(log));
  }

  /** The words of the last stage: inversion on, display on. */
  const DISPLAY_ON_WORDS: seq<Word> := [
    Command(INVON), Command(DISPON)
  ]

  /** DISPLAY_ON_WORDS written as one word after another. */
  lemma DisplayOnWords(w: seq<Word>)
    ensures w + [Command(INVON)] + [Command(DISPON)] == w + DISPLAY_ON_WORDS
  {
  }

  /** DisplayOnLog on the wire: DISPLAY_ON_WORDS, pin toggles and delays dropped. */
  lemma DisplayOnWire(log: seq<Event>)
    ensures Wire(DisplayOnLog(log)) == Wire(log) + DISPLAY_ON_WORDS
  {
    WireCmdSnoc(log, INVON); var l0 := log + CmdEvents(INVON);
    WireCmdSnoc(l0, DISPON); var l1 := l0 + CmdEvents(DISPON);
    WireSleepSnoc(l1, 50);
    DisplayOnWords(Wire(log));
  }

  /** The controller receives exactly the documented command stream: the
      four stages' words in order, pin toggles and delays dropped. */
  lemma InitSequenceWire(log: seq<Event>)
    ensures Wire(InitSequenceLog(log)) ==
      Wire(log) + INIT_HEAD_WORDS + POSITIVE_GAMMA_WORDS + NEGATIVE_GAMMA_WORDS + DISPLAY_ON_WORDS
  {
    InitSequenceStages(log);
    var l1 := InitHeadLog(log);
    var l2 := PositiveGammaLog(l1);
    var l3 := NegativeGammaLog(l2);
    InitHeadWire(log);
    PositiveGammaWire(l1);
    NegativeGammaWire(l2);
    DisplayOnWire(l3);
  }

  /** Stores one pixel's three bytes at pixel position i of a buffer. */
  method PutPixel(buffer: array<u8>, i: nat, c: Rgb)
    requires 3 * i + 3 <= buffer.Length
    modifies buffer
    ensures buffer[..3 * i + 3] == old(buffer[..3 * i]) + c.Bytes()
  {
    buffer[3 * i] := c.r;
    buffer[3 * i + 1] := c.g;
    buffer[3 * i + 2] := c.b;
  }

  /** The prefill loop of ili9488_fill_area and fill_area_rgb24: n copies of
      one pixel at the start of a buffer. */
  method FillSolid(buffer: array<u8>, px: Rgb, n: nat)
    requires 3 * n <= buffer.Length
    modifies buffer
    ensures buffer[..3 * n] == Flatten(Solid(px, n))
  {
    var i := 0;
    while i < n
      invariant 0 <= i <= n
      invariant buffer[..3 * i] == Flatten(Solid(px, i))
    {
      PutPixel(buffer, i, px);
      SolidSnoc(px, i);
      i := i + 1;
    }
  }

  /** The buffer-filling loop of ili9488_write_pixels: n pixels converted from the
      colour array starting at index `start`, the index wrapping with `% len`;
      returns the index to continue from. */
  method FillBuffer565(buffer: array<u8>, colors: seq<u16>, start: nat, n: nat) returns (next: nat)
    requires start < |colors| && 3 * n <= buffer.Length
    modifies buffer
    ensures next == Advance(|colors|, start, n)
    ensures buffer[..3 * n] == Flatten(CycleFrom(Convert565(colors), start, n))
  {
    ghost var table := Convert565(colors);
    next := start;
    var i := 0;
    while i < n
      invariant 0 <= i <= n
      invariant next == Advance(|colors|, start, i)
      invariant buffer[..3 * i] == Flatten(CycleFrom(table, start, i))
    {
      var c := Rgb565ToRgb666(colors[next]);
      Convert565Index(colors, next);
      CycleFromSnoc(table, start, i);
      NextIndexMod(|colors|, next);
      next := (next + 1) % |colors|;
      PutPixel(buffer, i, c);
      i := i + 1;
    }
  }

  /** The buffer-filling loop of ili9488_write_pixels_rgb24: n pixels converted from the
      colour array starting at index `start`, the index wrapping with `% len`;
      returns the index to continue from. */
  method FillBuffer24(buffer: array<u8>, colors: seq<u32>, start: nat, n: nat) returns (next: nat)
    requires start < |colors| && 3 * n <= buffer.Length
    modifies buffer
    ensures next == Advance(|colors|, start, n)
    ensures buffer[..3 * n] == Flatten(CycleFrom(Convert24(colors), start, n))
  {
    ghost var table := Convert24(colors);
    next := start;
    var i := 0;
    while i < n
      invariant 0 <= i <= n
      invariant next == Advance(|colors|, start, i)
      invariant buffer[..3 * i] == Flatten(CycleFrom(table, start, i))
    {
      var c := Rgb24ToRgb666(colors[next]);
      Convert24Index(colors, next);
      CycleFromSnoc(table, start, i);
      NextIndexMod(|colors|, next);
      next := (next + 1) % |colors|;
      PutPixel(buffer, i, c);
      i := i + 1;
    }
  }

  // ---------------------------------------------------------------------------
  // The driver object

  /** The file-scope state of src/ili9488.c on top of the transport. */
  class Display {
    const bus: Bus
    var isInitialized: bool
    var width: u16
    var height: u16
    var rotation: u8

    /** The DMA invariant of the transport, and dimensions that are either the
        zero state before any rotation was set or the ones set_rotation
        stores for the current rotation. */
    ghost predicate Valid()
      reads this`width, this`height, this`rotation, bus`dmaBusy, bus`dmaChannel, bus`dmaConfigured
    {
      bus.Valid() && rotation < 4
      && ((width == 0 && height == 0 && rotation == 0) || (width, height) == Dimensions(rotation))
    }

    /** The zero-initialised driver state. */
    constructor (bus: Bus)
      requires bus.Valid()
      ensures Valid() && this.bus == bus
      ensures !isInitialized && width == 0 && height == 0 && rotation == 0
    {
      this.bus := bus;
      isInitialized := false;
      width, height, rotation := 0, 0, 0;
    }

    /** ili9488_init_sequence: the vendor start-up sequence, written to the
        controller one byte at a time. */
    method InitSequence(ghost before: seq<Event>)
      requires bus.log == before
      modifies bus`cs, bus`dc, bus`log
      ensures bus.log == InitSequenceLog(before)
    {
      InitHead();
      assert bus.log == InitStages(before, 1);
      PositiveGamma();
      assert bus.log == InitStages(before, 2);
      NegativeGamma();
      assert bus.log == InitStages(before, 3);
      bus.WriteCmd(INVON);
      bus.WriteCmd(DISPON); bus.DelayMs(50);
    }

    /** First part of ili9488_init_sequence. */
    method InitHead()
      modifies bus`cs, bus`dc, bus`log
      ensures bus.log == InitHeadLog(old(bus.log))
    {
      bus.WriteCmd(SWRESET); bus.DelayMs(200);
      bus.WriteCmd(SLPOUT); bus.DelayMs(200);
      bus.WriteCmd(MADCTL); bus.WriteData(0x48);
      bus.WriteCmd(PIXFMT); bus.WriteData(0x66);
      bus.WriteCmd(VCOMCTL); bus.WriteData(0x00); bus.WriteData(0x36); bus.WriteData(0x80);
      bus.WriteCmd(PWCTRL3); bus.WriteData(0xA7);
    }

    /** The positive gamma table of ili9488_init_sequence. */
    method PositiveGamma()
      modifies bus`cs, bus`dc, bus`log
      ensures bus.log == PositiveGammaLog(old(bus.log))
    {
      bus.WriteCmd(PGAMCTRL); bus.WriteData(0xF0); bus.WriteData(0x01); bus.WriteData(0x06); bus.WriteData(0x0F); bus.WriteData(0x12); bus.WriteData(0x1D); bus.WriteData(0x36);
      bus.WriteData(0x54); bus.WriteData(0x44); bus.WriteData(0x0C); bus.WriteData(0x18); bus.WriteData(0x16); bus.WriteData(0x13); bus.WriteData(0x15);
    }

    /** The negative gamma table of ili9488_init_sequence. */
    method NegativeGamma()
      modifies bus`cs, bus`dc, bus`log
      ensures bus.log == NegativeGammaLog(old(bus.log))
    {
      bus.WriteCmd(NGAMCTRL); bus.WriteData(0xF0); bus.WriteData(0x01); bus.WriteData(0x05); bus.WriteData(0x0A); bus.WriteData(0x0B); bus.WriteData(0x07); bus.WriteData(0x32);
      bus.WriteData(0x44); bus.WriteData(0x44); bus.WriteData(0x0C); bus.WriteData(0x18); bus.WriteData(0x17); bus.WriteData(0x13); bus.WriteData(0x16);
    }

    /** The first two steps of ili9488_init after the configuration check:
        transport start-up and hardware reset. */
    method StartTransport(c: DisplayConfig)
      modifies bus`config, bus`cs, bus`dc, bus`reset, bus`brightness, bus`log
      ensures bus.config == HwOf(c) && bus.brightness == 255 && bus.reset
      ensures bus.log == old(bus.log) + HalInitEvents() + ResetEvents()
    {
      // hal_init only rejects a null configuration, and this one is not null.
      var halOk := bus.Init(Some(HwOf(c)));
      bus.Reset();
    }

    /** ili9488_init: an initialised driver reports success without touching
        anything, a missing configuration fails; otherwise the transport is
        brought up, the panel reset and programmed, the rotation applied and
        the driver marked initialised. */
    method Init(config: Option<DisplayConfig>) returns (ok: bool)
      requires Valid()
      modifies this`isInitialized, this`width, this`height, this`rotation
      modifies bus`config, bus`cs, bus`dc, bus`reset, bus`brightness, bus`log
      ensures Valid()
      ensures ok == (old(isInitialized) || config.Some?) && isInitialized == ok
      ensures old(isInitialized) || config.None? ==>
        width == old(width) && height == old(height) && rotation == old(rotation)
        && bus.config == old(bus.config) && bus.brightness == old(bus.brightness) && bus.log == old(bus.log)
        && bus.cs == old(bus.cs) && bus.dc == old(bus.dc) && bus.reset == old(bus.reset)
      ensures !old(isInitialized) && config.Some? ==>
        rotation == config.value.rotation % 4 && (width, height) == Dimensions(rotation)
        && bus.config == HwOf(config.value) && bus.brightness == 255
        && bus.cs && bus.dc && bus.reset
        && bus.log == InitSequenceLog(old(bus.log) + HalInitEvents() + ResetEvents()) + RotationEvents(config.value.rotation)
    {
      if isInitialized {
        return true;
      }
      if config.None? {
        return false;
      }
      var c := config.value;
      width, height, rotation := c.width, c.height, c.rotation;
      PowerUp(c, old(bus.log));
      isInitialized := true;
      return true;
    }

    /** The body of ili9488_init once the configuration is accepted: transport
        start-up, hardware reset, vendor sequence, then the configured
        rotation. */
    method PowerUp(c: DisplayConfig, ghost before: seq<Event>)
      requires bus.log == before
      modifies this`width, this`height, this`rotation
      modifies bus`config, bus`cs, bus`dc, bus`reset, bus`brightness, bus`log
      ensures rotation == c.rotation % 4 && (width, height) == Dimensions(rotation)
      ensures bus.config == HwOf(c) && bus.brightness == 255
      ensures bus.cs && bus.dc && bus.reset
      ensures bus.log == InitSequenceLog(before + HalInitEvents() + ResetEvents()) + RotationEvents(c.rotation)
    {
      StartTransport(c);
      InitSequence(before + HalInitEvents() + ResetEvents());
      SetRotation(c.rotation);
    }

    /** ili9488_set_backlight. */
    method SetBacklight(on: bool)
      modifies bus`brightness
      ensures bus.brightness == if on then 255 else 0
    {
      bus.SetBacklight(on);
    }

    /** ili9488_set_backlight_brightness. */
    method SetBacklightBrightness(level: u8)
      modifies bus`brightness
      ensures bus.brightness == level
    {
      bus.SetBacklightBrightness(level);
    }

    /** A command and two 16-bit bounds, as ili9488_set_window and
        ili9488_set_partial_area send them. */
    method WriteRange(c: u8, lo: u16, hi: u16)
      modifies bus`cs, bus`dc, bus`log
      ensures bus.log == old(bus.log) + RangeEvents(c, lo, hi)
    {
      bus.WriteCmd(c);
      bus.WriteData(lo / 0x100); bus.WriteData(lo % 0x100);
      bus.WriteData(hi / 0x100); bus.WriteData(hi % 0x100);
    }

    /** ili9488_set_window. */
    method SetWindow(x0: u16, y0: u16, x1: u16, y1: u16)
      modifies bus`cs, bus`dc, bus`log
      ensures bus.log == old(bus.log) + WindowEvents(x0, y0, x1, y1)
    {
      ghost var l0 := bus.log;
      WriteRange(CASET, x0, x1);
      WriteRange(PASET, y0, y1);
      bus.WriteCmd(RAMWR);
      ghost var cols, rows := RangeEvents(CASET, x0, x1), RangeEvents(PASET, y0, y1);
      AppendAssoc(l0, cols, rows);
      AppendAssoc(l0, cols + rows, CmdEvents(RAMWR));
    }

    /** ili9488_draw_pixel. */
    method DrawPixel(x: u16, y: u16, color: u16)
      modifies bus`cs, bus`dc, bus`log
      ensures bus.log == old(bus.log) + PixelEvents(x, y, Rgb565ToRgb666(color), width, height)
    {
      if x >= width || y >= height {
        return;
      }
      SetWindow(x, y, x, y);
      var c := Rgb565ToRgb666(color);
      bus.WriteDataBuffer([c.r, c.g, c.b]);
    }

    /** ili9488_draw_pixel_rgb24. */
    method DrawPixelRgb24(x: u16, y: u16, color24: u32)
      modifies bus`cs, bus`dc, bus`log
      ensures bus.log == old(bus.log) + PixelEvents(x, y, Rgb24ToRgb666(color24), width, height)
    {
      if x >= width || y >= height {
        return;
      }
      SetWindow(x, y, x, y);
      var c := Rgb24ToRgb666(color24);
      bus.WriteDataBuffer([c.r, c.g, c.b]);
    }

    /** ili9488_write_data_buffer. */
    method WriteDataBuffer(data: seq<u8>)
      modifies bus`cs, bus`dc, bus`log
      ensures bus.log == old(bus.log) + BufferEvents(data)
    {
      bus.WriteDataBuffer(data);
    }

    /** ili9488_set_rotation. */
    method SetRotation(r: u8)
      modifies this`width, this`height, this`rotation, bus`cs, bus`dc, bus`log
      ensures rotation == r % 4 && (width, height) == Dimensions(r % 4)
      ensures bus.cs && bus.dc
      ensures bus.log == old(bus.log) + RotationEvents(r)
    {
      var madctl := MadctlFor(r);
      if r % 2 == 0 {
        width, height := 320, 480;
      } else {
        width, height := 480, 320;
      }
      rotation := r % 4;
      bus.WriteCmd(MADCTL);
      bus.WriteData(madctl as u8);
    }

    /** ili9488_partial_mode. */
    method PartialMode(enable: bool)
      modifies bus`cs, bus`dc, bus`log
      ensures bus.log == old(bus.log) + CmdEvents(if enable then PTLON else NORON) + [Sleep(10)]
    {
      if enable {
        bus.WriteCmd(PTLON);
      } else {
        bus.WriteCmd(NORON);
      }
      bus.DelayMs(10);
    }

    /** ili9488_set_partial_area. */
    method SetPartialArea(x0: u16, y0: u16, x1: u16, y1: u16)
      modifies bus`cs, bus`dc, bus`log
      ensures bus.log == old(bus.log) + PartialAreaEvents(x0, y0, x1, y1, width, height)
    {
      if x0 >= width || y0 >= height || x1 >= width || y1 >= height {
        return;
      }
      var lo, hi := y0, y1;
      if lo > hi {
        lo, hi := hi, lo;
      }
      WriteRange(PTLAR, lo, hi);
    }

    /** Sends n copies of a pixel, one buffer write per pixel. */
    method WritePixelByPixel(px: Rgb, n: nat)
      modifies bus`cs, bus`dc, bus`log
      ensures bus.log == old(bus.log) + PixelBatches(Solid(px, n), 1)
    {
      var i := 0;
      while i < n
        invariant 0 <= i <= n
        invariant bus.log + PixelBatches(Solid(px, n - i), 1) == old(bus.log) + PixelBatches(Solid(px, n), 1)
      {
        ghost var before := bus.log;
        SolidBatchStep(px, n - i, 1);
        FlattenOne(px);
        bus.WriteDataBuffer(px.Bytes());
        AppendAssoc(before, BufferEvents(px.Bytes()), PixelBatches(Solid(px, n - i - 1), 1));
        i := i + 1;
      }
    }

    /** Sends n copies of a pixel from a buffer prefilled with `cap` copies, in
        writes of at most `cap` pixels. */
    method WriteSolidBatches(px: Rgb, n: nat, cap: nat)
      requires cap >= 1
      modifies bus`cs, bus`dc, bus`log
      ensures bus.log == old(bus.log) + PixelBatches(Solid(px, n), cap)
    {
      var buffer := new u8[3 * cap];
      FillSolid(buffer, px, cap);
      var remaining: nat := n;
      while remaining > 0
        invariant remaining <= n
        invariant buffer[..3 * cap] == Flatten(Solid(px, cap))
        invariant bus.log + PixelBatches(Solid(px, remaining), cap) == old(bus.log) + PixelBatches(Solid(px, n), cap)
      {
        ghost var before := bus.log;
        var batch := SendSolidBatch(buffer, px, remaining, cap);
        SolidBatchStep(px, remaining, cap);
        AppendStep(before, BufferEvents(Flatten(Solid(px, batch))), PixelBatches(Solid(px, remaining - batch), cap),
                   PixelBatches(Solid(px, remaining), cap), old(bus.log) + PixelBatches(Solid(px, n), cap));
        remaining := remaining - batch;
      }
    }

    /** One write of the fill loop: the first min(remaining, cap) pixels of a
        buffer prefilled with `cap` copies of a pixel. */
    method SendSolidBatch(buffer: array<u8>, px: Rgb, remaining: nat, cap: nat) returns (batch: nat)
      requires 3 * cap <= buffer.Length && buffer[..3 * cap] == Flatten(Solid(px, cap))
      modifies bus`cs, bus`dc, bus`log
      ensures batch == Min(remaining, cap)
      ensures bus.log == old(bus.log) + BufferEvents(Flatten(Solid(px, batch)))
    {
      batch := if remaining > cap then cap else remaining;
      SolidPrefix(px, cap, batch);
      assert buffer[..3 * batch] == buffer[..3 * cap][..3 * batch];
      bus.WriteDataBuffer(buffer[..3 * batch]);
    }

    /** ili9488_fill_area. */
    method FillArea(x0: u16, y0: u16, x1: u16, y1: u16, color: u16)
      modifies bus`cs, bus`dc, bus`log
      ensures bus.log == old(bus.log) + FillAreaEvents(x0, y0, x1, y1, Rgb565ToRgb666(color))
    {
      var left, right := x0, x1;
      if left > right {
        left, right := right, left;
      }
      var top, bottom := y0, y1;
      if top > bottom {
        top, bottom := bottom, top;
      }
      SetWindow(left, top, right, bottom);
      var px := Rgb565ToRgb666(color);
      var total := AreaU32(left, top, right, bottom);
      if total <= 256 {
        WritePixelByPixel(px, total);
        AppendAssoc(old(bus.log), WindowEvents(left, top, right, bottom), PixelBatches(Solid(px, total), 1));
        return;
      }
      WriteSolidBatches(px, total, 256);
      AppendAssoc(old(bus.log), WindowEvents(left, top, right, bottom), PixelBatches(Solid(px, total), 256));
    }

    /** ili9488_fill_area_rgb24 (the progress messages are not modelled). The
        pixel count is the exact area. The C int product can only overflow
        when width and height are far beyond any size set_rotation stores,
        which Valid() rules out. */
    method FillAreaRgb24(x0: u16, y0: u16, x1: u16, y1: u16, color24: u32)
      modifies bus`cs, bus`dc, bus`log
      ensures bus.log == old(bus.log) + FillAreaRgb24Events(x0, y0, x1, y1, Rgb24ToRgb666(color24), width, height)
    {
      if x0 >= width || y0 >= height || x1 >= width || y1 >= height {
        return;
      }
      var left, right := x0, x1;
      if left > right {
        left, right := right, left;
      }
      var top, bottom := y0, y1;
      if top > bottom {
        top, bottom := bottom, top;
      }
      var numPixels: nat := Area(left, top, right, bottom);
      SetWindow(left, top, right, bottom);
      var px := Rgb24ToRgb666(color24);
      WriteSolidBatches(px, numPixels, 128);
      AppendAssoc(old(bus.log), WindowEvents(left, top, right, bottom), PixelBatches(Solid(px, numPixels), 128));
    }

    /** ili9488_fill_screen: the whole panel, with `width - 1` and
        `height - 1` converted to uint16_t. */
    method FillScreen(color: u16)
      modifies bus`cs, bus`dc, bus`log
      ensures bus.log == old(bus.log) + FillAreaEvents(0, 0, U16(width - 1), U16(height - 1), Rgb565ToRgb666(color))
    {
      FillArea(0, 0, U16(width - 1), U16(height - 1), color);
    }

    /** ili9488_fill_screen_rgb24. */
    method FillScreenRgb24(color24: u32)
      modifies bus`cs, bus`dc, bus`log
      ensures bus.log == old(bus.log) + FillAreaRgb24Events(0, 0, U16(width - 1), U16(height - 1), Rgb24ToRgb666(color24), width, height)
    {
      FillAreaRgb24(0, 0, U16(width - 1), U16(height - 1), color24);
    }

    /** ili9488_write_pixels: nothing for an empty colour array; otherwise the window, then the area's pixels taken cyclically from the array and sent 32 at a time. */
    method WritePixels(x0: u16, y0: u16, x1: u16, y1: u16, colors: seq<u16>)
      modifies bus`cs, bus`dc, bus`log
      ensures colors == [] ==> bus.log == old(bus.log)
      ensures colors != [] ==>
        bus.log == old(bus.log) + WritePixelsEvents(x0, y0, x1, y1, Cycle565(colors, AreaU32(x0, y0, x1, y1)))
    {
      if |colors| == 0 {
        return;
      }
      SetWindow(x0, y0, x1, y1);
      var area := AreaU32(x0, y0, x1, y1);
      SendCycled565(colors, area);
      AppendAssoc(old(bus.log), WindowEvents(x0, y0, x1, y1), PixelBatches(Cycle565(colors, area), 32));
    }

    /** The batch loop of ili9488_write_pixels: `area` pixels, colours taken cyclically
        from the array, packed 32 at a time into a 96-byte buffer. */
    method SendCycled565(colors: seq<u16>, area: u32)
      requires colors != []
      modifies bus`cs, bus`dc, bus`log
      ensures bus.log == old(bus.log) + PixelBatches(Cycle565(colors, area), 32)
    {
      ghost var table := Convert565(colors);
      var buffer := new u8[32 * 3];
      var colorIdx: nat := 0;
      var remaining: nat := area;
      while remaining > 0
        invariant colorIdx < |colors|
        invariant bus.log + PixelBatches(CycleFrom(table, colorIdx, remaining), 32) == old(bus.log) + PixelBatches(CycleFrom(table, 0, area), 32)
      {
        var n := if remaining < 32 then remaining else 32;
        ghost var start := colorIdx;
        colorIdx := FillBuffer565(buffer, colors, colorIdx, n);
        CycleBatchStep(table, start, remaining, n);
        ghost var before := bus.log;
        bus.WriteDataBuffer(buffer[..3 * n]);
        AppendAssoc(before, BufferEvents(Flatten(CycleFrom(table, start, n))), PixelBatches(CycleFrom(table, colorIdx, remaining - n), 32));
        remaining := remaining - n;
      }
    }

    /** ili9488_write_pixels_rgb24: as WritePixels, from 24-bit colours. */
    method WritePixelsRgb24(x0: u16, y0: u16, x1: u16, y1: u16, colors: seq<u32>)
      modifies bus`cs, bus`dc, bus`log
      ensures colors == [] ==> bus.log == old(bus.log)
      ensures colors != [] ==>
        bus.log == old(bus.log) + WritePixelsEvents(x0, y0, x1, y1, Cycle24(colors, AreaU32(x0, y0, x1, y1)))
    {
      if |colors| == 0 {
        return;
      }
      SetWindow(x0, y0, x1, y1);
      var area := AreaU32(x0, y0, x1, y1);
      SendCycled24(colors, area);
      AppendAssoc(old(bus.log), WindowEvents(x0, y0, x1, y1), PixelBatches(Cycle24(colors, area), 32));
    }

    /** The batch loop of ili9488_write_pixels_rgb24: `area` pixels, colours taken cyclically
        from the array, packed 32 at a time into a 96-byte buffer. */
    method SendCycled24(colors: seq<u32>, area: u32)
      requires colors != []
      modifies bus`cs, bus`dc, bus`log
      ensures bus.log == old(bus.log) + PixelBatches(Cycle24(colors, area), 32)
    {
      ghost var table := Convert24(colors);
      var buffer := new u8[32 * 3];
      var colorIdx: nat := 0;
      var remaining: nat := area;
      while remaining > 0
        invariant colorIdx < |colors|
        invariant bus.log + PixelBatches(CycleFrom(table, colorIdx, remaining), 32) == old(bus.log) + PixelBatches(CycleFrom(table, 0, area), 32)
      {
        var n := if remaining < 32 then remaining else 32;
        ghost var start := colorIdx;
        colorIdx := FillBuffer24(buffer, colors, colorIdx, n);
        CycleBatchStep(table, start, remaining, n);
        ghost var before := bus.log;
        bus.WriteDataBuffer(buffer[..3 * n]);
        AppendAssoc(before, BufferEvents(Flatten(CycleFrom(table, start, n))), PixelBatches(CycleFrom(table, colorIdx, remaining - n), 32));
        remaining := remaining - n;
      }
    }

    /** ili9488_write_data_dma: an empty buffer fails before anything is
        touched; otherwise DC is driven high and the transfer is handed to the
        transport, which may still refuse it. */
    method WriteDataDma(data: seq<u8>, claimed: int) returns (ok: bool)
      requires Valid()
      modifies bus`dmaChannel, bus`dmaConfigured, bus`dmaBusy, bus`cs, bus`dc, bus`log
      ensures Valid()
      ensures ok == (data != [] && (old(bus.dmaChannel) != -1 || claimed != -1) && !old(bus.dmaBusy))
      ensures data == [] ==> bus.log == old(bus.log)
      ensures data != [] && ok ==> bus.dmaBusy && bus.log == old(bus.log) + [Dc(true), Dc(true), Cs(false), Spi(true, data)]
      ensures data != [] && !ok ==> bus.dmaBusy == old(bus.dmaBusy) && bus.log == old(bus.log) + [Dc(true)]
    {
      if |data| == 0 {
        return false;
      }
      bus.PutDc(true);
      ok := bus.WriteDataDma(data, claimed);
    }
  }

  /** Before initialisation the dimensions are zero, so fill_screen's
      `width - 1` wraps to 65535 and the pixel count wraps to zero: only the
      window is sent. */
  lemma FillScreenBeforeInit(px: Rgb)
    ensures FillAreaEvents(0, 0, U16(0 - 1), U16(0 - 1), px) == WindowEvents(0, 0, 0xFFFF, 0xFFFF)
  {
    assert AreaU32(0, 0, 0xFFFF, 0xFFFF) == 0;
    assert PixelBatches(Solid(px, 0), 1) == [];
    assert WindowEvents(0, 0, 0xFFFF, 0xFFFF) + [] == WindowEvents(0, 0, 0xFFFF, 0xFFFF);
  }

  /** After initialisation a full-screen fill sends exactly width x height
      copies of the colour. */
  lemma FillScreenCoversPanel(rotation: u8, px: Rgb)
    ensures var (w, h) := Dimensions(rotation);
      var words := Wire(FillAreaEvents(0, 0, w - 1, h - 1, px));
      |words| >= 11 && DecodeWindow(words[..11]) == Some((0, 0, w - 1, h - 1))
      && words[11..] == DataWords(Flatten(Solid(px, 320 * 480)))
  {
    var (w, h) := Dimensions(rotation);
    assert Min(0, w - 1) == 0 && Max(0, w - 1) == w - 1 && Min(0, h - 1) == 0 && Max(0, h - 1) == h - 1;
    assert AreaU32(0, 0, w - 1, h - 1) == 320 * 480 by {
      if rotation % 2 == 0 {
        assert Area(0, 0, 319, 479) == 320 * 480;
      } else {
        assert Area(0, 0, 479, 319) == 480 * 320;
      }
    }
    FillAreaWire(0, 0, w - 1, h - 1, px);
  }
}
