/** The colour helpers of the demo program (examples/ili9488_demo.c): RGB565
    packing, 24-bit RGB666 packing, the split of a 24-bit colour into 6-bit
    channels and the conversion the demo's string drawing applies. They are
    bit manipulations on uint8_t, uint16_t and uint32_t, so this module works
    on bit-vectors of those widths. */
module DemoColors {
  import Driver

  /** ili9488_color: the low five bits of r, six of g and five of b packed as
      RGB565, red on top. Every field comes back out unchanged. */
  function Color565(r: bv8, g: bv8, b: bv8): (c: bv16)
    ensures Unpack565(c) == (r & 0x1F, g & 0x3F, b & 0x1F)
  {
    ((r & 0x1F) as bv16 << 11) | ((g & 0x3F) as bv16 << 5) | (b & 0x1F) as bv16
  }

  /** The three fields of an RGB565 word, each in the low bits of a byte. */
  function Unpack565(c: bv16): (bv8, bv8, bv8)
  {
    (((c >> 11) & 0x1F) as bv8, ((c >> 5) & 0x3F) as bv8, (c & 0x1F) as bv8)
  }

  /** ili9488_color_666: each channel is cut to six bits and placed in the top
      six bits of its byte of a 24-bit colour, red on top. The low two bits of
      every byte stay zero and nothing is set above bit 23; splitting the
      colour again gives back the 6-bit channels. */
  function Color666(r: bv8, g: bv8, b: bv8): (c: bv32)
    ensures c & 0xFF03_0303 == 0
    ensures Rgb24ToRgb666(c) == (r & 0x3F, g & 0x3F, b & 0x3F)
  {
    var r6, g6, b6 := r & 0x3F, g & 0x3F, b & 0x3F;
    ((r6 << 2) as bv32 << 16) | ((g6 << 2) as bv32 << 8) | (b6 << 2) as bv32
  }

  /** RGB24_to_RGB666: the three bytes of a 24-bit colour, each shifted right
      by two, so every channel is at most 63. (The driver's rgb24_to_rgb666
      does not shift; this is the demo's own helper.) */
  function Rgb24ToRgb666(color24: bv32): (c: (bv8, bv8, bv8))
    ensures c.0 <= 0x3F && c.1 <= 0x3F && c.2 <= 0x3F
  {
    var r := ((color24 >> 16) & 0xFF) as bv8;
    var g := ((color24 >> 8) & 0xFF) as bv8;
    var b := (color24 & 0xFF) as bv8;
    (r >> 2, g >> 2, b >> 2)
  }

  /** The colour ili9488_draw_string_rgb24 hands to the RGB565 string drawer:
      the 6-bit channels of the 24-bit colour, red and blue cut to five bits.
      This keeps the top five, six and five bits of the three bytes. */
  function StringColour(color24: bv32): (c: bv16)
    ensures Unpack565(c) == (((color24 >> 19) & 0x1F) as bv8, ((color24 >> 10) & 0x3F) as bv8, ((color24 >> 3) & 0x1F) as bv8)
  {
    var t := Rgb24ToRgb666(color24);
    Color565(t.0 >> 1, t.1, t.2 >> 1)
  }

  /** Full-scale white of the header, 0xFCFCFC, is drawn as RGB565 white, and
      black as black. */
  lemma StringColourExtremes()
    ensures StringColour(0xFCFCFC) as int == 0xFFFF && 0xFCFCFC == Driver.WHITE
    ensures StringColour(0) == 0 && 0 == Driver.BLACK
  {
  }

  /** The header's black, white, red, green and blue are ili9488_color_666 of
      channels that are each 63 or 0. */
  lemma HeaderColours()
    ensures Color666(0, 0, 0) as int == Driver.BLACK
    ensures Color666(63, 63, 63) as int == Driver.WHITE
    ensures Color666(63, 0, 0) as int == Driver.RED
    ensures Color666(0, 63, 0) as int == Driver.GREEN
    ensures Color666(0, 0, 63) as int == Driver.BLUE
  {
  }
}
