/** The seven-colour palette of the UC8159 panel (plus the HiZ "clean"
    state), its 3-bit wire codes, nibble packing and nearest-colour
    quantisation (src/display/color.rs). */
module Colors {
  import opened Wrappers

  /** `OctColor`; the declaration order is the palette order used when
      quantising. */
  datatype Color = Black | White | Green | Blue | Red | Yellow | Orange | HiZ

  /** `OutOfColorRangeParseError`: the offending nibble. */
  datatype OutOfColorRange = OutOfColorRange(nibble: bv8)

  /** An (r, g, b) triple of 8-bit channels (`Rgb888`), or of raw
      narrower channels for the 5/6-bit colour types. */
  datatype Rgb = Rgb(r: Channel, g: Channel, b: Channel)

  /** One colour channel, a `u8`. */
  type Channel = x: int | 0 <= x < 256

  /** `get_nibble`: the declared discriminant. */
  function Nibble(c: Color): (n: bv8)
    ensures n < 8
  {
    match c
    case Black => 0x00
    case White => 0x01
    case Green => 0x02
    case Blue => 0x03
    case Red => 0x04
    case Yellow => 0x05
    case Orange => 0x06
    case HiZ => 0x07
  }

  lemma NibbleInjective(a: Color, b: Color)
    ensures Nibble(a) == Nibble(b) <==> a == b
  {
  }

  /** `from_nibble`: only the low four bits are inspected; codes 8-15 are
      rejected with the masked value. */
  function FromNibble(n: bv8): (r: Result<Color, OutOfColorRange>)
    ensures r.Err? <==> n & 0xF >= 8
    ensures r.Err? ==> r.error == OutOfColorRange(n & 0xF)
    ensures r.Ok? ==> Nibble(r.value) == n & 0xF
  {
    match n & 0xF
    case 0x00 => Ok(Black)
    case 0x01 => Ok(White)
    case 0x02 => Ok(Green)
    case 0x03 => Ok(Blue)
    case 0x04 => Ok(Red)
    case 0x05 => Ok(Yellow)
    case 0x06 => Ok(Orange)
    case 0x07 => Ok(HiZ)
    case e => Err(OutOfColorRange(e))
  }

  lemma FromNibbleRoundTrip(c: Color)
    ensures FromNibble(Nibble(c)) == Ok(c)
  {
  }

  /** `from_nibble` is blind to the high nibble. */
  lemma FromNibbleMasks(n: bv8)
    ensures FromNibble(n) == FromNibble(n & 0xF)
  {
  }

  /** `From<RawU4>`: the raw 4-bit pixel value through `from_nibble`, whose
      result is unwrapped, so only the eight defined codes may be passed;
      codes 8 to 15 would panic. */
  function FromRawU4(n: bv8): (c: Color)
    requires n < 8
    ensures Nibble(c) == n
    ensures FromNibble(n) == Ok(c)
  {
    match FromNibble(n)
    case Ok(c) => c
  }

  /** `colors_byte`: first colour in the high nibble, second in the low. */
  function ColorsByte(high: Color, low: Color): (b: bv8)
    ensures b == Nibble(high) * 16 + Nibble(low)
    ensures b >> 4 == Nibble(high) && b & 0xF == Nibble(low)
  {
    var h, l := Nibble(high), Nibble(low);
    assert h < 8 && l < 8;
    (h << 4) | l
  }

  /** `split_byte`: the low nibble is decoded first, so its error wins when
      both nibbles are out of range. */
  function SplitByte(b: bv8): (r: Result<(Color, Color), OutOfColorRange>)
    ensures r.Ok? <==> b & 0xF < 8 && (b >> 4) & 0xF < 8
    ensures b & 0xF >= 8 ==> r == Err(OutOfColorRange(b & 0xF))
    ensures b & 0xF < 8 && (b >> 4) & 0xF >= 8 ==> r == Err(OutOfColorRange((b >> 4) & 0xF))
    ensures r.Ok? ==> ColorsByte(r.value.0, r.value.1) == b
  {
    match FromNibble(b & 0xF)
    case Err(e) => Err(e)
    case Ok(low) =>
      match FromNibble((b >> 4) & 0xF)
      case Err(e) => Err(e)
      case Ok(high) => Ok((high, low))
  }

  lemma SplitByteRoundTrip(high: Color, low: Color)
    ensures SplitByte(ColorsByte(high, low)) == Ok((high, low))
  {
  }

  /** `rgb`: the approximate on-screen colour. */
  function ToRgb(c: Color): Rgb
  {
    match c
    case White => Rgb(0xff, 0xff, 0xff)
    case Black => Rgb(0x00, 0x00, 0x00)
    case Green => Rgb(0x00, 0xff, 0x00)
    case Blue => Rgb(0x00, 0x00, 0xff)
    case Red => Rgb(0xff, 0x00, 0x00)
    case Yellow => Rgb(0xff, 0xff, 0x00)
    case Orange => Rgb(0xff, 0x80, 0x00)
    case HiZ => Rgb(0x80, 0x80, 0x80)
  }

  lemma ToRgbInjective(a: Color, b: Color)
    ensures ToRgb(a) == ToRgb(b) <==> a == b
  {
  }

  /** `From<BinaryColor>`: `On` is ink (Black), `Off` is paper (White). */
  function FromBinary(on: bool): (c: Color)
    ensures c == Black <==> on
    ensures c == White <==> !on
  {
    if on then Black else White
  }

  /** `From<()>`: the unit colour is White. */
  function FromUnit(): (c: Color)
    ensures Nibble(c) == 0x01
  {
    White
  }

  /** The candidate order of the conversions: declaration order. */
  const Palette: seq<Color> := [Black, White, Green, Blue, Red, Yellow, Orange, HiZ]

  lemma PaletteIsNibbleOrder()
    ensures |Palette| == 8
    ensures forall i :: 0 <= i < |Palette| ==> Nibble(Palette[i]) as int == i
  {
  }

  /** Squared Euclidean distance between a palette entry and `p`. */
  function Distance(c: Color, p: Rgb): (d: nat)
    ensures d == 0 <==> ToRgb(c) == p
  {
    var q := ToRgb(c);
    Square(Gap(q.r, p.r)) + Square(Gap(q.g, p.g)) + Square(Gap(q.b, p.b))
  }

  /** The absolute difference of two channels. */
  function Gap(x: Channel, y: Channel): (n: nat)
    ensures n <= 255
    ensures n == 0 <==> x == y
  {
    if x < y then y - x else x - y
  }

  /** `n * n`, written as a sum of odd numbers so that the solver is not
      drawn into non-linear arithmetic when comparing distances. */
  function Square(n: nat): (s: nat)
    ensures s == 0 <==> n == 0
  {
    if n == 0 then 0 else Square(n - 1) + 2 * n - 1
  }

  lemma {:induction false} SquareIsProduct(n: nat)
    ensures Square(n) == n * n
  {
    if n > 0 {
      SquareIsProduct(n - 1);
      assert (n - 1) * (n - 1) == n * n - 2 * n + 1;
    }
  }

  /** The source computes the distance in `i32`; the largest value,
      3 * 255 * 255, cannot overflow it. */
  lemma DistanceFitsI32(c: Color, p: Rgb)
    ensures Distance(c, p) <= 3 * 255 * 255 < 0x8000_0000
  {
    var q := ToRgb(c);
    forall n: nat | n <= 255
      ensures Square(n) <= 255 * 255
    {
      SquareIsProduct(n);
      MulMonotone(n, n, 255);
      MulMonotone(255, n, 255);
    }
    assert Square(Gap(q.r, p.r)) <= 255 * 255;
    assert Square(Gap(q.g, p.g)) <= 255 * 255;
    assert Square(Gap(q.b, p.b)) <= 255 * 255;
  }

  lemma MulMonotone(k: nat, x: nat, y: nat)
    requires x <= y
    ensures k * x <= k * y
  {
  }

  /** `colors.iter().find(|c| c.rgb() == p)`. */
  function FindExact(p: Rgb, cs: seq<Color>): (r: Option<Color>)
    ensures r.Some? ==> r.value in cs && ToRgb(r.value) == p
    ensures r.None? ==> forall i :: 0 <= i < |cs| ==> ToRgb(cs[i]) != p
  {
    if |cs| == 0 then None
    else if ToRgb(cs[0]) == p then Some(cs[0])
    else FindExact(p, cs[1..])
  }

  /** The key `min_by_key` compares for each candidate: its distance to `p`. */
  function DistancesTo(p: Rgb, cs: seq<Color>): (ds: seq<nat>)
    ensures |ds| == |cs|
    ensures forall j :: 0 <= j < |cs| ==> ds[j] == Distance(cs[j], p)
  {
    if |cs| == 0 then [] else [Distance(cs[0], p)] + DistancesTo(p, cs[1..])
  }

  /** The fold behind `min_by_key`: `best` is the position of the smallest
      key before `i`; a later key replaces it only when strictly smaller, so
      the first minimum is kept. */
  function FirstMinFrom(keys: seq<nat>, best: nat, i: nat): (k: nat)
    requires best < i <= |keys|
    ensures k < |keys|
    ensures k == best || (i <= k && keys[k] < keys[best])
    ensures keys[k] <= keys[best]
    ensures forall j :: i <= j < |keys| ==> keys[k] <= keys[j]
    ensures forall j :: i <= j < k ==> keys[j] > keys[k]
    decreases |keys| - i
  {
    if i == |keys| then best
    else if keys[i] < keys[best] then FirstMinFrom(keys, i, i + 1)
    else FirstMinFrom(keys, best, i + 1)
  }

  /** `min_by_key(..)` over a list of keys: `None` only when the list is
      empty; otherwise the position of the first smallest key. */
  function FirstMin(keys: seq<nat>): (r: Option<nat>)
    ensures r.None? <==> |keys| == 0
    ensures r.Some? ==> r.value < |keys|
    ensures r.Some? ==> forall j :: 0 <= j < |keys| ==> keys[r.value] <= keys[j]
    ensures r.Some? ==> forall j :: 0 <= j < r.value ==> keys[j] > keys[r.value]
  {
    if |keys| == 0 then None else Some(FirstMinFrom(keys, 0, 1))
  }

  /** `From<Rgb888>`: an exact palette match first, otherwise the closest
      palette entry; `unwrap_or(White)` is the fallback for an empty list. */
  function Quantize(p: Rgb): (c: Color)
    ensures forall d: Color :: Distance(c, p) <= Distance(d, p)
    ensures forall d: Color :: Nibble(d) < Nibble(c) ==> Distance(d, p) > Distance(c, p)
  {
    match FindExact(p, Palette)
    case Some(found) =>
      QuantizeExact(found);
      found
    case None =>
      match FirstMin(DistancesTo(p, Palette))
      case Some(k) =>
        FirstNearestInPalette(p, k);
        Palette[k]
      case None => White
  }

  /** The first closest position of the palette list is the closest colour,
      earliest in declaration order on ties. */
  lemma FirstNearestInPalette(p: Rgb, k: nat)
    requires k < |Palette|
    requires forall j :: 0 <= j < |Palette| ==> Distance(Palette[k], p) <= Distance(Palette[j], p)
    requires forall j :: 0 <= j < k ==> Distance(Palette[j], p) > Distance(Palette[k], p)
    ensures forall d: Color :: Distance(Palette[k], p) <= Distance(d, p)
    ensures forall d: Color :: Nibble(d) < Nibble(Palette[k]) ==> Distance(d, p) > Distance(Palette[k], p)
  {
    PaletteIsNibbleOrder();
    forall d: Color
      ensures Distance(Palette[k], p) <= Distance(d, p)
      ensures Nibble(d) < Nibble(Palette[k]) ==> Distance(d, p) > Distance(Palette[k], p)
    {
      var j := Nibble(d) as int;
      assert Palette[j] == d;
    }
  }

  /** The exact-match shortcut agrees with the nearest-colour rule. */
  lemma QuantizeExact(c: Color)
    ensures forall d: Color :: d != c ==> Distance(d, ToRgb(c)) > Distance(c, ToRgb(c))
  {
    var p := ToRgb(c);
    forall d: Color | d != c
      ensures Distance(d, p) > 0
    {
      ToRgbInjective(c, d);
      DistancePositive(d, p);
    }
  }

  lemma DistancePositive(d: Color, p: Rgb)
    requires ToRgb(d) != p
    ensures Distance(d, p) > 0
  {
  }

  /** The palette never is empty, so `unwrap_or(White)` is dead code. */
  lemma QuantizeFallbackUnreachable(p: Rgb)
    ensures FirstMin(DistancesTo(p, Palette)).Some?
  {
  }

  /** `From<OctColor> for Rgb888` followed by `From<Rgb888>` is the identity. */
  lemma QuantizeRoundTrip(c: Color)
    ensures Quantize(ToRgb(c)) == c
  {
    QuantizeExact(c);
  }

  /** A colour strictly closer than every other one is the one chosen. */
  lemma QuantizeUniqueNearest(p: Rgb, c: Color)
    requires forall d: Color :: d != c ==> Distance(d, p) > Distance(c, p)
    ensures Quantize(p) == c
  {
    var q := Quantize(p);
    assert Distance(q, p) <= Distance(c, p);
  }

  lemma QuantizeExamples()
    ensures Quantize(Rgb(0, 0, 0)) == Black
    ensures Quantize(Rgb(10, 10, 10)) == Black
    ensures Quantize(Rgb(255, 128, 0)) == Orange
  {
    QuantizeRoundTrip(Black);
    QuantizeRoundTrip(Orange);
    DarkGreyIsNearestBlack();
    QuantizeUniqueNearest(Rgb(10, 10, 10), Black);
  }

  /** A dark grey is strictly closer to Black than to any other colour. */
  lemma DarkGreyIsNearestBlack()
    ensures forall d: Color :: d != Black ==> Distance(d, Rgb(10, 10, 10)) > Distance(Black, Rgb(10, 10, 10))
  {
    SquareIsProduct(10);
    SquareIsProduct(245);
    SquareIsProduct(118);
    assert Distance(Black, Rgb(10, 10, 10)) == 300;
  }

  // The `Rgb565` and `Rgb555` conversions run the same search on the raw
  // channel values of those types (red and blue at most 31, green at most
  // 63 or 31), comparing them with the 8-bit palette triples.

  /** A colour of a narrower type: raw channels; green has six bits in
      `Rgb565` (`wideGreen`) and five in `Rgb555`. */
  datatype NarrowRgb = NarrowRgb(r: nat, g: nat, b: nat, wideGreen: bool)

  predicate ValidNarrow(p: NarrowRgb)
  {
    p.r < 32 && p.b < 32 && (if p.wideGreen then p.g < 64 else p.g < 32)
  }

  /** `From<Rgb565>` / `From<Rgb555>` as written: raw channels are compared
      with 8-bit palette values. */
  function FromNarrowAsWritten(p: NarrowRgb): (c: Color)
    requires ValidNarrow(p)
  {
    Quantize(Rgb(p.r, p.g, p.b))
  }

  /** The brightest narrow colour, full-scale white, comes out Black. */
  lemma NarrowWhiteBecomesBlack(p: NarrowRgb)
    requires p == NarrowRgb(31, 63, 31, true) || p == NarrowRgb(31, 31, 31, false)
    ensures FromNarrowAsWritten(p) == Black
  {
    if p.wideGreen {
      WhiteNearestBlack(63);
    } else {
      WhiteNearestBlack(31);
    }
    QuantizeUniqueNearest(Rgb(p.r, p.g, p.b), Black);
  }

  /** Raw full-scale white, (31, `g`, 31) with a full-scale green of 5 or 6
      bits, is strictly closer to Black than to any other colour. */
  lemma WhiteNearestBlack(g: Channel)
    requires g == 31 || g == 63
    ensures forall d: Color :: d != Black ==> Distance(d, Rgb(31, g, 31)) > Distance(Black, Rgb(31, g, 31))
  {
    SquareIsProduct(31);
    SquareIsProduct(97);
    SquareIsProduct(224);
    if g == 63 {
      SquareIsProduct(63);
      SquareIsProduct(65);
      SquareIsProduct(192);
    } else {
      SquareIsProduct(96);
    }
  }

  /** Widens a 5-bit channel to 8 bits by bit replication: its top three
      bits are repeated below it (0 -> 0, 31 -> 255). */
  function Widen5(v: nat): (w: Channel)
    requires v < 32
    ensures 8 * v <= w < 8 * v + 8
  {
    v * 8 + Top3Of5(v)
  }

  /** Widens a 6-bit channel to 8 bits by bit replication: its top two bits
      are repeated below it (0 -> 0, 63 -> 255). */
  function Widen6(v: nat): (w: Channel)
    requires v < 64
    ensures 4 * v <= w < 4 * v + 4
  {
    v * 4 + Top2Of6(v)
  }

  /** The top three bits of a 5-bit value, `v >> 2`, as a comparison chain. */
  function Top3Of5(v: nat): (t: nat)
    requires v < 32
    ensures 4 * t <= v < 4 * t + 4
  {
    if v < 4 then 0 else if v < 8 then 1 else if v < 12 then 2 else if v < 16 then 3
    else if v < 20 then 4 else if v < 24 then 5 else if v < 28 then 6 else 7
  }

  /** The top two bits of a 6-bit value, `v >> 4`, as a comparison chain. */
  function Top2Of6(v: nat): (t: nat)
    requires v < 64
    ensures 16 * t <= v < 16 * t + 16
  {
    if v < 16 then 0 else if v < 32 then 1 else if v < 48 then 2 else 3
  }

  /** Corrected conversion: widen every channel to 8 bits, then quantise. */
  function FromNarrow(p: NarrowRgb): (c: Color)
    requires ValidNarrow(p)
  {
    Quantize(Widened(p))
  }

  function Widened(p: NarrowRgb): (q: Rgb)
    requires ValidNarrow(p)
  {
    Rgb(Widen5(p.r), if p.wideGreen then Widen6(p.g) else Widen5(p.g), Widen5(p.b))
  }

  /** The top five bits of an 8-bit channel. */
  function Narrow5(v: Channel): (n: nat)
    ensures n < 32
    ensures 8 * n <= v < 8 * n + 8
  {
    v / 8
  }

  /** The top six bits of an 8-bit channel. */
  function Narrow6(v: Channel): (n: nat)
    ensures n < 64
    ensures 4 * n <= v < 4 * n + 4
  {
    v / 4
  }

  /** An 8-bit colour truncated to `Rgb565`: five bits of red and blue, six
      of green. */
  function Narrowed565(q: Rgb): (p: NarrowRgb)
    ensures ValidNarrow(p) && p.wideGreen
  {
    NarrowRgb(Narrow5(q.r), Narrow6(q.g), Narrow5(q.b), true)
  }

  /** An 8-bit colour truncated to `Rgb555`: five bits per channel. */
  function Narrowed555(q: Rgb): (p: NarrowRgb)
    ensures ValidNarrow(p) && !p.wideGreen
  {
    NarrowRgb(Narrow5(q.r), Narrow5(q.g), Narrow5(q.b), false)
  }

  /** With the channels widened first, every palette colour survives the
      trip through either narrow type. */
  lemma FromNarrowRoundTrip(c: Color)
    ensures FromNarrow(Narrowed565(ToRgb(c))) == c
    ensures FromNarrow(Narrowed555(ToRgb(c))) == c
  {
    var q := ToRgb(c);
    WidenedIsNear(q);
    QuantizeNear(c, Widened(Narrowed565(q)));
    QuantizeNear(c, Widened(Narrowed555(q)));
  }

  /** Every channel of `w` lies within 7 of the matching channel of `q`. */
  predicate Near(q: Rgb, w: Rgb)
  {
    Gap(q.r, w.r) <= 7 && Gap(q.g, w.g) <= 7 && Gap(q.b, w.b) <= 7
  }

  /** Narrowing to five or six bits and widening back moves a channel by
      less than one step of the narrow scale. */
  lemma WidenedIsNear(q: Rgb)
    ensures Near(q, Widened(Narrowed565(q)))
    ensures Near(q, Widened(Narrowed555(q)))
  {
  }

  /** Two different palette colours differ by at least 127 in some channel. */
  lemma PaletteSeparated(c: Color, d: Color)
    requires c != d
    ensures var qc, qd := ToRgb(c), ToRgb(d);
      Gap(qc.r, qd.r) >= 127 || Gap(qc.g, qd.g) >= 127 || Gap(qc.b, qd.b) >= 127
  {
  }

  /** Any colour near a palette entry quantises to that entry: its own
      distance is at most 3 * 7 * 7, every other entry's at least 120 * 120. */
  lemma QuantizeNear(c: Color, w: Rgb)
    requires Near(ToRgb(c), w)
    ensures Quantize(w) == c
  {
    NearIsClose(c, w);
    forall d: Color | d != c
      ensures Distance(d, w) >= 14400
    {
      OthersAreFar(c, d, w);
    }
    QuantizeUniqueNearest(w, c);
  }

  lemma NearIsClose(c: Color, w: Rgb)
    requires Near(ToRgb(c), w)
    ensures Distance(c, w) <= 147
  {
    var q := ToRgb(c);
    SquareIsProduct(7);
    SquareMonotone(Gap(q.r, w.r), 7);
    SquareMonotone(Gap(q.g, w.g), 7);
    SquareMonotone(Gap(q.b, w.b), 7);
  }

  lemma OthersAreFar(c: Color, d: Color, w: Rgb)
    requires Near(ToRgb(c), w) && d != c
    ensures Distance(d, w) >= 14400
  {
    var q, qd := ToRgb(c), ToRgb(d);
    PaletteSeparated(c, d);
    SquareIsProduct(120);
    if Gap(q.r, qd.r) >= 127 {
      SquareMonotone(120, Gap(qd.r, w.r));
    } else if Gap(q.g, qd.g) >= 127 {
      SquareMonotone(120, Gap(qd.g, w.g));
    } else {
      SquareMonotone(120, Gap(qd.b, w.b));
    }
  }

  lemma {:induction false} SquareMonotone(m: nat, n: nat)
    requires m <= n
    ensures Square(m) <= Square(n)
  {
    if m < n {
      SquareMonotone(m, n - 1);
    }
  }
}
