/** The colour arithmetic of the geometric-patterns demo
    (examples/ili9488_graphics_demo.cpp): the HSV to RGB conversion up to the
    8-bit channels, and the alpha blend of two RGB565 colours. Shifts and
    masks on non-negative values are written as division and remainder by
    powers of two, and an `|` of disjoint bit fields as their sum. */
module GraphicsDemo {
  import opened Ints

  // ---------------------------------------------------------------------------
  // Arithmetic helpers

  /** (v * x) >> 8 for two bytes never exceeds v. */
  lemma ScaleAtMost(v: int, x: int)
    requires 0 <= v <= 255 && 0 <= x <= 255
    ensures 0 <= v * x / 256 <= v
  {
    MulLe(x, v, 255);
    assert x * v == v * x;
  }

  /** (v * x) >> 8 grows with x. */
  lemma ScaleMonotone(v: int, a: int, b: int)
    requires 0 <= v && 0 <= a <= b
    ensures v * a / 256 <= v * b / 256
  {
    MulLe(a, v, b);
    assert a * v == v * a && b * v == v * b;
  }

  // ---------------------------------------------------------------------------
  // HSV

  /** The sector of the hue circle and the position inside it, in
      hsvToRgb565: six sectors of 43 hue steps, the position scaled by 6 so
      that it stays within a uint8_t. */
  function Sector(h: u8): (r: (u8, u8))
    ensures r.0 <= 5 && r.1 <= 252 && r.1 % 6 == 0
    ensures h == r.0 * 43 + r.1 / 6
  {
    var region := h / 43;
    var remainder := U8((h - region * 43) * 6);
    (region, remainder)
  }

  /** hsvToRgb565 up to the (r, g, b) it hands to rgb565::from_rgb888. A grey
      (s == 0) has every channel equal to v. Otherwise p, q and t are v
      scaled down by the saturation, and the sector picks which channel gets
      which. The colour has value v: its brightest channel is exactly v. Its
      dimmest channel is p, v scaled by 1 - s. */
  function HsvToRgb(h: u8, s: u8, v: u8): (rgb: (u8, u8, u8))
    ensures rgb.0 <= v && rgb.1 <= v && rgb.2 <= v
    ensures rgb.0 == v || rgb.1 == v || rgb.2 == v
    ensures s == 0 ==> rgb == (v, v, v)
    ensures s != 0 ==> Min(rgb.0, Min(rgb.1, rgb.2)) == v * (255 - s) / 256
  {
    if s == 0 then (v, v, v)
    else
      HsvLevels(h, s, v);
      var (region, remainder) := Sector(h);
      var p := U8(v * (255 - s) / 256);
      var q := U8(v * (255 - s * remainder / 256) / 256);
      var t := U8(v * (255 - s * (255 - remainder) / 256) / 256);
      if region == 0 then (v, t, p)
      else if region == 1 then (q, v, p)
      else if region == 2 then (p, v, t)
      else if region == 3 then (p, q, v)
      else if region == 4 then (t, p, v)
      else (v, p, q)
  }

  /** The three levels of a coloured hue fit in a uint8_t without
      truncation, none exceeds v, and p, the fully desaturated one, is the
      lowest. */
  lemma HsvLevels(h: u8, s: u8, v: u8)
    requires s != 0
    ensures var remainder := Sector(h).1;
      var p := v * (255 - s) / 256;
      var q := v * (255 - s * remainder / 256) / 256;
      var t := v * (255 - s * (255 - remainder) / 256) / 256;
      && 0 <= p <= q <= v && p <= t <= v
  {
    var remainder := Sector(h).1;
    ScaleAtMost(s, remainder);
    ScaleAtMost(s, 255 - remainder);
    ScaleAtMost(v, 255 - s);
    ScaleAtMost(v, 255 - s * remainder / 256);
    ScaleAtMost(v, 255 - s * (255 - remainder) / 256);
    ScaleMonotone(v, 255 - s, 255 - s * remainder / 256);
    ScaleMonotone(v, 255 - s, 255 - s * (255 - remainder) / 256);
  }

  // ---------------------------------------------------------------------------
  // RGB565 blending

  /** (c >> 11) & 0x1F */
  function Red(c: u16): nat { c / 2048 % 32 }

  /** (c >> 5) & 0x3F */
  function Green(c: u16): nat { c / 32 % 64 }

  /** c & 0x1F */
  function Blue(c: u16): nat { c % 32 }

  /** (r << 11) | (g << 5) | b; the fields do not overlap. Packing and
      splitting are inverse. */
  function Pack(r: nat, g: nat, b: nat): (c: u16)
    requires r < 32 && g < 64 && b < 32
    ensures Red(c) == r && Green(c) == g && Blue(c) == b
  {
    var c := r * 2048 + g * 32 + b;
    assert c / 32 == r * 64 + g by {
      DivUnique(c, 32, r * 64 + g);
    }
    assert c / 2048 == r by {
      DivUnique(c, 2048, r);
    }
    c
  }

  /** Every colour is the packing of its fields. */
  lemma PackFields(c: u16)
    ensures Pack(Red(c), Green(c), Blue(c)) == c
  {
    FieldsSum(c);
  }

  lemma FieldsSum(c: u16)
    ensures Red(c) * 2048 + Green(c) * 32 + Blue(c) == c
  {
    var a := c / 32;
    var hi := a / 64;
    assert c == a * 32 + c % 32;
    assert a == hi * 64 + a % 64;
    assert c == hi * 2048 + (a % 64) * 32 + c % 32;
    DivUnique(c, 2048, hi);
  }

  /** One channel of blendColors: the alpha-weighted average of the two in
      units of 1/255, rounded down. It lies between the two channels. */
  function Mix(x: nat, y: nat, alpha: u8): (m: nat)
    ensures Min(x, y) <= m <= Max(x, y)
  {
    var sum := x * alpha + y * (255 - alpha);
    if x <= y then
      MulLe(x, 255 - alpha, y);
      MulLe(x, alpha, y);
      assert x * alpha + x * (255 - alpha) == x * 255;
      assert y * alpha + y * (255 - alpha) == y * 255;
      sum / 255
    else
      MulLe(y, 255 - alpha, x);
      MulLe(y, alpha, x);
      assert x * alpha + x * (255 - alpha) == x * 255;
      assert y * alpha + y * (255 - alpha) == y * 255;
      sum / 255
  }

  /** blendColors: each field of the result is the mix of the two colours'
      fields, so it lies between them and stays within its field. */
  function BlendColors(color1: u16, color2: u16, alpha: u8): (c: u16)
    ensures Min(Red(color1), Red(color2)) <= Red(c) <= Max(Red(color1), Red(color2))
    ensures Min(Green(color1), Green(color2)) <= Green(c) <= Max(Green(color1), Green(color2))
    ensures Min(Blue(color1), Blue(color2)) <= Blue(c) <= Max(Blue(color1), Blue(color2))
  {
    var r := U8(Mix(Red(color1), Red(color2), alpha));
    var g := U8(Mix(Green(color1), Green(color2), alpha));
    var b := U8(Mix(Blue(color1), Blue(color2), alpha));
    Pack(r, g, b)
  }

  /** A channel mixed at full alpha is the first one, at zero alpha the
      second one. */
  lemma MixExtremes(x: nat, y: nat)
    ensures Mix(x, y, 255) == x && Mix(x, y, 0) == y
  {
    DivUnique(x * 255 + y * 0, 255, x);
    DivUnique(x * 0 + y * 255, 255, y);
  }

  /** Full alpha gives the first colour and zero alpha the second. */
  lemma BlendExtremes(color1: u16, color2: u16)
    ensures BlendColors(color1, color2, 255) == color1
    ensures BlendColors(color1, color2, 0) == color2
  {
    MixExtremes(Red(color1), Red(color2));
    MixExtremes(Green(color1), Green(color2));
    MixExtremes(Blue(color1), Blue(color2));
    PackFields(color1);
    PackFields(color2);
  }
}
