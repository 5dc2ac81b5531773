/** The in-memory framebuffer of the 5.65" panel: two pixels per byte,
    with clipping and rotation applied to every drawn pixel
    (src/display/display.rs). */
module Framebuffer {
  import opened Wrappers
  import opened Colors

  /** `WIDTH` and `HEIGHT`: the native size of the panel in pixels. */
  const Width: nat := 600
  const Height: nat := 448

  /** `DEFAULT_BACKGROUND_COLOR`. */
  const DefaultBackground: Color := White

  /** The buffer size, `WIDTH * HEIGHT / 2` bytes. */
  const BufferLen: nat := Width * Height / 2

  /** `DisplayRotation`, clockwise. */
  datatype Rotation = Rotate0 | Rotate90 | Rotate180 | Rotate270

  /** An embedded-graphics point: signed logical coordinates. */
  datatype Point = Point(x: int, y: int)

  /** An embedded-graphics pixel: a point and the colour to draw there. */
  datatype Pixel = Pixel(point: Point, color: Color)

  /** `Display5in65f`: the packed buffer and the current rotation. */
  datatype Display = Display(buffer: seq<bv8>, rotation: Rotation)

  // ---------------------------------------------------------------------
  // Geometry

  /** `outside_display`: negative coordinates are always outside; the
      logical frame is `width` x `height` for Rotate0/180 and
      `height` x `width` for Rotate90/270. */
  function OutsideDisplay(p: Point, width: nat, height: nat, r: Rotation): (out: bool)
    ensures p.x < 0 || p.y < 0 ==> out
    ensures !out ==> 0 <= p.x && 0 <= p.y
  {
    if p.x < 0 || p.y < 0 then true
    else
      match r
      case Rotate0 | Rotate180 => p.x >= width || p.y >= height
      case Rotate90 | Rotate270 => p.y >= width || p.x >= height
  }

  /** `find_rotation`: logical coordinates to native panel coordinates. The
      source works in `u32`; here the arithmetic is over `int`, so a result
      below zero is exactly where the source's subtraction would underflow. */
  function FindRotation(x: int, y: int, width: int, height: int, r: Rotation): (n: (int, int))
  {
    match r
    case Rotate0 => (x, y)
    case Rotate90 => (width - 1 - y, x)
    case Rotate180 => (width - 1 - x, height - 1 - y)
    case Rotate270 => (y, height - 1 - x)
  }

  /** The inverse map: native panel coordinates back to logical ones. */
  function UnRotate(nx: int, ny: int, width: int, height: int, r: Rotation): (p: (int, int))
  {
    match r
    case Rotate0 => (nx, ny)
    case Rotate90 => (ny, width - 1 - nx)
    case Rotate180 => (width - 1 - nx, height - 1 - ny)
    case Rotate270 => (height - 1 - ny, nx)
  }

  /** A point is kept by the clipping test exactly when it is non-negative
      and its rotated coordinates land on the panel, with no underflow. */
  lemma ClipMatchesPanel(p: Point, width: nat, height: nat, r: Rotation)
    ensures !OutsideDisplay(p, width, height, r) <==>
      (0 <= p.x && 0 <= p.y &&
       var n := FindRotation(p.x, p.y, width, height, r);
       0 <= n.0 < width && 0 <= n.1 < height)
  {
  }

  /** Rotating and un-rotating is the identity in both orders. */
  lemma RotationRoundTrip(x: int, y: int, width: int, height: int, r: Rotation)
    ensures var n := FindRotation(x, y, width, height, r);
      UnRotate(n.0, n.1, width, height, r) == (x, y)
    ensures var p := UnRotate(x, y, width, height, r);
      FindRotation(p.0, p.1, width, height, r) == (x, y)
  {
  }

  /** Distinct logical points go to distinct native points. */
  lemma FindRotationInjective(a: Point, b: Point, width: int, height: int, r: Rotation)
    ensures FindRotation(a.x, a.y, width, height, r) == FindRotation(b.x, b.y, width, height, r) <==> a == b
  {
    RotationRoundTrip(a.x, a.y, width, height, r);
    RotationRoundTrip(b.x, b.y, width, height, r);
  }

  /** Rotating by 180 degrees twice is the identity. */
  lemma Rotate180Involution(x: int, y: int, width: int, height: int)
    ensures var n := FindRotation(x, y, width, height, Rotate180);
      FindRotation(n.0, n.1, width, height, Rotate180) == (x, y)
  {
  }

  /** `find_oct_position`: the byte holding a visible pixel and whether the
      pixel is the byte's upper nibble (even native column). For an even
      width the pair is the row-major pixel number split in two, and the
      byte lies inside a `width / 2 * height` buffer. */
  function FindOctPosition(p: Point, width: nat, height: nat, r: Rotation): (pos: (nat, bool))
    requires !OutsideDisplay(p, width, height, r)
    ensures var n := FindRotation(p.x, p.y, width, height, r);
      pos.1 <==> n.0 % 2 == 0
    ensures width % 2 == 0 ==>
      var n := FindRotation(p.x, p.y, width, height, r);
      2 * pos.0 + (if pos.1 then 0 else 1) == n.1 * width + n.0
    ensures width % 2 == 0 ==> pos.0 < width / 2 * height
  {
    ClipMatchesPanel(p, width, height, r);
    var n := FindRotation(p.x, p.y, width, height, r);
    var nx: nat, ny: nat := n.0, n.1;
    var byte := ByteOf(nx, ny, width / 2);
    if width % 2 == 0 then
      OctIndexFacts(nx, ny, width / 2, height);
      (byte, nx % 2 == 0)
    else
      (byte, nx % 2 == 0)
  }

  /** The byte of native pixel (`nx`, `ny`) in rows of `k` bytes. */
  function ByteOf(nx: nat, ny: nat, k: nat): nat
  {
    nx / 2 + k * ny
  }

  /** The byte arithmetic of a `2 * k`-wide panel. */
  lemma OctIndexFacts(nx: nat, ny: nat, k: nat, height: nat)
    requires nx < 2 * k && ny < height
    ensures 2 * (nx / 2 + k * ny) + (if nx % 2 == 0 then 0 else 1) == ny * (2 * k) + nx
    ensures nx / 2 + k * ny < k * height
  {
    assert 2 * (k * ny) == ny * (2 * k);
    RowBound(k, ny, height);
  }

  /** Rows before `ny` take `k * ny` bytes, which leaves room for a row. */
  lemma RowBound(k: nat, ny: nat, height: nat)
    requires ny < height
    ensures k * ny + k <= k * height
  {
    assert k * ny + k == k * (ny + 1);
    MulMonotone(k, ny + 1, height);
  }

  /** Row-major numbering of a `width`-wide grid is one to one. */
  lemma RowMajorInjective(x1: int, y1: nat, x2: int, y2: nat, width: nat)
    requires 0 <= x1 < width && 0 <= x2 < width
    requires y1 * width + x1 == y2 * width + x2
    ensures x1 == x2 && y1 == y2
  {
    if y1 < y2 {
      MulMonotone(width, y1 + 1, y2);
      assert false;
    } else if y2 < y1 {
      MulMonotone(width, y2 + 1, y1);
      assert false;
    }
  }

  /** Two visible points never share a nibble. */
  lemma OctPositionInjective(a: Point, b: Point, width: nat, height: nat, r: Rotation)
    requires width % 2 == 0
    requires !OutsideDisplay(a, width, height, r) && !OutsideDisplay(b, width, height, r)
    ensures FindOctPosition(a, width, height, r) == FindOctPosition(b, width, height, r) <==> a == b
  {
    if FindOctPosition(a, width, height, r) == FindOctPosition(b, width, height, r) {
      ClipMatchesPanel(a, width, height, r);
      ClipMatchesPanel(b, width, height, r);
      var na := FindRotation(a.x, a.y, width, height, r);
      var nb := FindRotation(b.x, b.y, width, height, r);
      RowMajorInjective(na.0, na.1, nb.0, nb.1, width);
      FindRotationInjective(a, b, width, height, r);
    }
  }

  // ---------------------------------------------------------------------
  // Nibble writes

  /** The masked write of `draw_helper`: keep the sibling nibble, replace the
      selected one with the colour code. */
  function WriteNibble(b: bv8, upper: bool, c: Color): (b': bv8)
    ensures upper ==> b' >> 4 == Nibble(c) && b' & 0xF == b & 0xF
    ensures !upper ==> b' & 0xF == Nibble(c) && b' >> 4 == b >> 4
  {
    var n := Nibble(c);
    if upper then (b & 0x0F) | (n << 4) else (b & 0xF0) | n
  }

  /** The nibble a visible point is stored in, `None` for a clipped point. */
  function NibbleAt(d: Display, width: nat, height: nat, p: Point): (v: Option<bv8>)
    requires width % 2 == 0 && |d.buffer| == width / 2 * height
    ensures v.Some? <==> !OutsideDisplay(p, width, height, d.rotation)
    ensures v.Some? ==> v.value < 16
  {
    if OutsideDisplay(p, width, height, d.rotation) then None
    else
      var pos := FindOctPosition(p, width, height, d.rotation);
      var b := d.buffer[pos.0];
      Some(if pos.1 then b >> 4 else b & 0xF)
  }

  /** `draw_helper`: a clipped pixel is silently dropped; a visible one
      rewrites one nibble of one byte and nothing else. */
  function DrawHelper(d: Display, width: nat, height: nat, px: Pixel): (d': Display)
    requires width % 2 == 0 && |d.buffer| == width / 2 * height
    ensures OutsideDisplay(px.point, width, height, d.rotation) ==> d' == d
    ensures |d'.buffer| == |d.buffer| && d'.rotation == d.rotation
    ensures !OutsideDisplay(px.point, width, height, d.rotation) ==>
      var pos := FindOctPosition(px.point, width, height, d.rotation);
      (forall j :: 0 <= j < |d.buffer| && j != pos.0 ==> d'.buffer[j] == d.buffer[j]) &&
      (pos.1 ==> d'.buffer[pos.0] >> 4 == Nibble(px.color) && d'.buffer[pos.0] & 0xF == d.buffer[pos.0] & 0xF) &&
      (!pos.1 ==> d'.buffer[pos.0] & 0xF == Nibble(px.color) && d'.buffer[pos.0] >> 4 == d.buffer[pos.0] >> 4)
  {
    if OutsideDisplay(px.point, width, height, d.rotation) then d
    else
      var pos := FindOctPosition(px.point, width, height, d.rotation);
      d.(buffer := d.buffer[pos.0 := WriteNibble(d.buffer[pos.0], pos.1, px.color)])
  }

  /** Reading back after a draw: the drawn point shows the new colour code,
      every other point shows what it showed before. */
  lemma DrawThenRead(d: Display, width: nat, height: nat, px: Pixel, q: Point)
    requires width % 2 == 0 && |d.buffer| == width / 2 * height
    ensures NibbleAt(DrawHelper(d, width, height, px), width, height, q) ==
      if q == px.point && !OutsideDisplay(q, width, height, d.rotation) then Some(Nibble(px.color))
      else NibbleAt(d, width, height, q)
  {
    var r := d.rotation;
    if !OutsideDisplay(px.point, width, height, r) && !OutsideDisplay(q, width, height, r) {
      OctPositionInjective(px.point, q, width, height, r);
    }
  }

  /** `draw_iter`: the pixels are drawn one after another, in order. */
  function DrawIter(d: Display, width: nat, height: nat, pixels: seq<Pixel>): (d': Display)
    requires width % 2 == 0 && |d.buffer| == width / 2 * height
    ensures |d'.buffer| == |d.buffer| && d'.rotation == d.rotation
    decreases |pixels|
  {
    if |pixels| == 0 then d
    else DrawHelper(DrawIter(d, width, height, pixels[..|pixels| - 1]), width, height, pixels[|pixels| - 1])
  }

  /** The colour of the last pixel in `pixels` drawn at `q`, if any. */
  function LastColorAt(pixels: seq<Pixel>, q: Point): (c: Option<Color>)
    ensures c.Some? <==> exists i :: 0 <= i < |pixels| && pixels[i].point == q
    ensures c.Some? ==> exists i :: 0 <= i < |pixels| && pixels[i] == Pixel(q, c.value)
  {
    if |pixels| == 0 then None
    else if pixels[|pixels| - 1].point == q then Some(pixels[|pixels| - 1].color)
    else
      var c := LastColorAt(pixels[..|pixels| - 1], q);
      assert forall i :: 0 <= i < |pixels| - 1 ==> pixels[..|pixels| - 1][i] == pixels[i];
      c
  }

  /** The last write to a visible point wins; a point no pixel touched keeps
      its old colour. */
  lemma {:induction false} DrawIterLastWins(d: Display, width: nat, height: nat, pixels: seq<Pixel>, q: Point)
    requires width % 2 == 0 && |d.buffer| == width / 2 * height
    requires !OutsideDisplay(q, width, height, d.rotation)
    ensures NibbleAt(DrawIter(d, width, height, pixels), width, height, q) ==
      match LastColorAt(pixels, q)
      case Some(c) => Some(Nibble(c))
      case None => NibbleAt(d, width, height, q)
    decreases |pixels|
  {
    if |pixels| > 0 {
      var init := pixels[..|pixels| - 1];
      DrawIterLastWins(d, width, height, init, q);
      DrawThenRead(DrawIter(d, width, height, init), width, height, pixels[|pixels| - 1], q);
    }
  }

  // ---------------------------------------------------------------------
  // Whole-buffer operations

  /** `clear_buffer`: every byte becomes two pixels of the background. */
  function ClearBuffer(d: Display, background: Color): (d': Display)
    ensures |d'.buffer| == |d.buffer| && d'.rotation == d.rotation
    ensures forall j :: 0 <= j < |d'.buffer| ==> d'.buffer[j] == ColorsByte(background, background)
  {
    d.(buffer := seq(|d.buffer|, _ => ColorsByte(background, background)))
  }

  /** After a clear, every visible point reads back as the background. */
  lemma ClearThenRead(d: Display, width: nat, height: nat, background: Color, q: Point)
    requires width % 2 == 0 && |d.buffer| == width / 2 * height
    requires !OutsideDisplay(q, width, height, d.rotation)
    ensures NibbleAt(ClearBuffer(d, background), width, height, q) == Some(Nibble(background))
  {
  }

  /** `Default`: a White buffer of `WIDTH * HEIGHT / 2` bytes, unrotated. */
  function Default(): (d: Display)
    ensures |d.buffer| == BufferLen == Width / 2 * Height == 134400
    ensures forall j :: 0 <= j < |d.buffer| ==> d.buffer[j] == 0x11
    ensures d.rotation == Rotate0
  {
    Display(seq(BufferLen, _ => ColorsByte(DefaultBackground, DefaultBackground)), Rotate0)
  }

  /** The default display is what clearing any unrotated buffer of the same
      size to the default background gives. */
  lemma DefaultIsCleared(d: Display)
    requires |d.buffer| == BufferLen && d.rotation == Rotate0
    ensures Default() == ClearBuffer(d, DefaultBackground)
  {
  }

  /** `set_rotation`: only the rotation changes. */
  function SetRotation(d: Display, r: Rotation): (d': Display)
    ensures d'.buffer == d.buffer && d'.rotation == r
  {
    d.(rotation := r)
  }
}
