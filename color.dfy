/** The `UIColor` convenience initialisers of the map view: a colour given as
    three integer channels and an alpha, and a colour given as one packed
    `0xRRGGBB` integer that is split into those channels.

    The model stops at the integer channels: the division of each channel by
    255.0 into a `CGFloat` is floating point and is not part of it. The alpha
    is carried as a `real` that is passed through untouched. */
module ColorDecoding {
  import opened Bits

  /** The arguments that reach `UIColor(red:green:blue:alpha:)`, before the
      channels are scaled to the unit interval. */
  datatype Color = Color(red: int, green: int, blue: int, alpha: real)

  /** Every channel is a byte value. */
  predicate ChannelsInByteRange(c: Color) {
    0 <= c.red < 256 && 0 <= c.green < 256 && 0 <= c.blue < 256
  }

  /** `UIColor(red:green:blue:a:)`: the channels are taken as given (no
      clamping, no check) and the alpha defaults to fully opaque. */
  function FromComponents(red: int, green: int, blue: int, a: real := 1.0): (c: Color)
    ensures c.red == red && c.green == green && c.blue == blue
    ensures c.alpha == a
  {
    Color(red, green, blue, a)
  }

  /** `UIColor(rgb:a:)`: red is bits 16..23 of `rgb`, green bits 8..15 and
      blue bits 0..7; the alpha defaults to fully opaque. */
  function FromRgb(rgb: Int64, a: real := 1.0): (c: Color)
    ensures ChannelsInByteRange(c)
    ensures c.alpha == a
  {
    FromComponents(
      red := Mask8(ShiftRight(rgb, 16)),
      green := Mask8(ShiftRight(rgb, 8)),
      blue := Mask8(rgb),
      a := a)
  }

  /** The packed value that three byte channels stand for. */
  function Pack(red: int, green: int, blue: int): (rgb: int)
    requires 0 <= red < 256 && 0 <= green < 256 && 0 <= blue < 256
    ensures 0 <= rgb < 0x100_0000
  {
    red * 0x1_0000 + green * 0x100 + blue
  }

  /** Each channel of `FromRgb(rgb)` is the eight-bit field of `rgb`'s
      two's-complement bits that its shift selects. */
  lemma ChannelsAreBitFields(rgb: Int64, a: real, i: nat)
    ensures Bit(FromRgb(rgb, a).red, i) <==> i < 8 && Bit(rgb, 16 + i)
    ensures Bit(FromRgb(rgb, a).green, i) <==> i < 8 && Bit(rgb, 8 + i)
    ensures Bit(FromRgb(rgb, a).blue, i) <==> i < 8 && Bit(rgb, i)
  {
    Mask8Bits(ShiftRight(rgb, 16), i);
    ShiftRightBits(rgb, 16, i);
    Mask8Bits(ShiftRight(rgb, 8), i);
    ShiftRightBits(rgb, 8, i);
    Mask8Bits(rgb, i);
  }

  /** A 24-bit value is recovered from its channels:
      red * 65536 + green * 256 + blue == rgb. */
  lemma RecombinesTo24BitInput(rgb: Int64, a: real)
    requires 0 <= rgb <= 0xFF_FFFF
    ensures var c := FromRgb(rgb, a); Pack(c.red, c.green, c.blue) == rgb
  {
    Pow2Values();
    var c := FromRgb(rgb, a);
    var q := rgb / 256;
    DivDiv(rgb, 256, 256);
    assert rgb / 65536 == q / 256;
    assert rgb / 65536 < 256;
    assert c.red == q / 256;
    assert q == 256 * c.red + c.green;
    assert rgb == 256 * q + c.blue;
  }

  /** Packing byte channels and decoding gives the same channels back, with
      the alpha as passed. */
  lemma DecodesPacked(red: int, green: int, blue: int, a: real)
    requires 0 <= red < 256 && 0 <= green < 256 && 0 <= blue < 256
    ensures FromRgb(Pack(red, green, blue), a) == Color(red, green, blue, a)
  {
    Pow2Values();
    var rgb := Pack(red, green, blue);
    DivUnique(rgb, 65536, red, green * 256 + blue);
    DivUnique(rgb, 256, red * 256 + green, blue);
    DivAddMultiple(green, 256, red);
  }

  /** Bits above the low 24 do not reach any channel. */
  lemma HighBitsIgnored(rgb: Int64, a: real)
    ensures FromRgb(rgb, a) == FromRgb(rgb % 0x100_0000, a)
  {
    Pow2Values();
    var t, m := rgb / 0x100_0000, rgb % 0x100_0000;
    assert rgb == 0x100_0000 * t + m;
    ShiftMaskIgnoresHighBits(m, t, 16);
    ShiftMaskIgnoresHighBits(m, t, 8);
    ShiftMaskIgnoresHighBits(m, t, 0);
    assert ShiftRight(rgb, 0) == rgb && ShiftRight(m, 0) == m;
  }

  /** Shifting by at most 16 and masking to eight bits cannot see a multiple
      of 2^24 added to the input. */
  lemma ShiftMaskIgnoresHighBits(m: int, t: int, s: nat)
    requires s <= 16
    ensures Mask8(ShiftRight(0x100_0000 * t + m, s)) == Mask8(ShiftRight(m, s))
  {
    Pow2Values();
    Pow2Add(s, 24 - s);
    Pow2Add(8, 16 - s);
    var u := Pow2(16 - s) * t;
    assert 0x100_0000 * t == Pow2(s) * (256 * u);
    DivAddMultiple(m, Pow2(s), 256 * u);
    DivAddMultiple(m / Pow2(s), 256, u);
  }

  /** The packed fill colour of the park outline layer. */
  const ParkFillRgb: Int64 := 0x801A86
  const ParkFillAlpha: real := 0.3
  /** The packed outline colour of the park outline layer. */
  const ParkOutlineRgb: Int64 := 0x4E0250
  const ParkOutlineAlpha: real := 0.8

  /** The two colours the park polygon layer is painted with. */
  datatype ParkPaint = ParkPaint(fill: Color, outline: Color)

  /** The fill and outline colours of the park polygon: a purple at 30%
      opacity over a darker purple outline at 80%. */
  function ParkEnvelopePaint(): (p: ParkPaint)
    ensures p.fill == Color(128, 26, 134, 0.3)
    ensures p.outline == Color(78, 2, 80, 0.8)
  {
    ParkPaint(FromRgb(ParkFillRgb, ParkFillAlpha), FromRgb(ParkOutlineRgb, ParkOutlineAlpha))
  }

  /** Omitting the alpha gives an opaque colour; either way the channels do
      not depend on the alpha. */
  lemma DefaultAlphaIsOpaque(rgb: Int64, a: real)
    ensures FromRgb(rgb).alpha == 1.0
    ensures FromRgb(rgb) == FromRgb(rgb, a).(alpha := 1.0)
  {
  }
}
