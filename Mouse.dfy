/** Normalisation of a mouse position, given in window pixels, into the
    device coordinates the ray caster expects: x runs from -1 at the left edge
    to 1 at the right edge, y from 1 at the top edge to -1 at the bottom edge
    (the screen's y axis points down, the device's points up). */
module Mouse {

  /** A point in device space (Three.js `Vector2`). */
  datatype Vec2 = Vec2(x: real, y: real)

  /** `(clientX / width) * 2 - 1`. */
  function NormalizeX(clientX: real, width: real): (x: real)
    requires width > 0.0
    ensures clientX == 0.0 ==> x == -1.0
    ensures clientX == width ==> x == 1.0
    ensures clientX == width / 2.0 ==> x == 0.0
  {
    DivSelf(width);
    (clientX / width) * 2.0 - 1.0
  }

  /** `-(clientY / height) * 2 + 1`: the same map, mirrored. */
  function NormalizeY(clientY: real, height: real): (y: real)
    requires height > 0.0
    ensures clientY == 0.0 ==> y == 1.0
    ensures clientY == height ==> y == -1.0
    ensures y == -NormalizeX(clientY, height)
  {
    DivSelf(height);
    -(clientY / height) * 2.0 + 1.0
  }

  /** The device point of a click at pixel `(clientX, clientY)` in a window of
      `width` by `height` pixels. */
  function Normalize(clientX: real, clientY: real, width: real, height: real): (p: Vec2)
    requires width > 0.0 && height > 0.0
    ensures p.x == NormalizeX(clientX, width) && p.y == NormalizeY(clientY, height)
    ensures clientX == 0.0 && clientY == 0.0 ==> p == Vec2(-1.0, 1.0)
    ensures clientX == width && clientY == height ==> p == Vec2(1.0, -1.0)
  {
    Vec2(NormalizeX(clientX, width), NormalizeY(clientY, height))
  }

  /** The pixel column that normalises to device x coordinate `x`: the
      inverse of NormalizeX, used to state that the map loses nothing. */
  function PixelX(x: real, width: real): (clientX: real)
    requires width > 0.0
    ensures x == -1.0 ==> clientX == 0.0
    ensures x == 1.0 ==> clientX == width
  {
    (x + 1.0) * width / 2.0
  }

  /** The pixel row that normalises to device y coordinate `y`. */
  function PixelY(y: real, height: real): (clientY: real)
    requires height > 0.0
    ensures y == 1.0 ==> clientY == 0.0
    ensures y == -1.0 ==> clientY == height
  {
    (1.0 - y) * height / 2.0
  }

  /** Normalising a pixel column and mapping it back gives the same column,
      and the other way round: NormalizeX is a bijection on the reals. */
  lemma NormalizeXRoundTrip(clientX: real, x: real, width: real)
    requires width > 0.0
    ensures PixelX(NormalizeX(clientX, width), width) == clientX
    ensures NormalizeX(PixelX(x, width), width) == x
  {
  }

  /** The same two round trips for rows. */
  lemma NormalizeYRoundTrip(clientY: real, y: real, height: real)
    requires height > 0.0
    ensures PixelY(NormalizeY(clientY, height), height) == clientY
    ensures NormalizeY(PixelY(y, height), height) == y
  {
  }

  /** A click is inside the window exactly when its device point is inside
      the square [-1, 1] x [-1, 1]. */
  lemma InsideWindowIffInsideSquare(clientX: real, clientY: real, width: real, height: real)
    requires width > 0.0 && height > 0.0
    ensures (0.0 <= clientX <= width) <==> (-1.0 <= NormalizeX(clientX, width) <= 1.0)
    ensures (0.0 <= clientY <= height) <==> (-1.0 <= NormalizeY(clientY, height) <= 1.0)
  {
    RatioInUnit(clientX, width);
    RatioInUnit(clientY, height);
  }

  /** Moving right moves right in device space; moving down moves down. */
  lemma NormalizeMonotone(a: real, b: real, size: real)
    requires size > 0.0 && a < b
    ensures NormalizeX(a, size) < NormalizeX(b, size)
    ensures NormalizeY(a, size) > NormalizeY(b, size)
  {
    DivMono(a, b, size);
  }

  /** `0 <= v <= size` exactly when `0 <= v / size <= 1`. */
  lemma RatioInUnit(v: real, size: real)
    requires size > 0.0
    ensures (0.0 <= v <= size) <==> (0.0 <= v / size <= 1.0)
  {
  }

  /** Arithmetic facts about division by a positive size. */
  lemma DivSelf(w: real)
    requires w > 0.0
    ensures w / w == 1.0
  {
  }

  lemma DivMono(a: real, b: real, w: real)
    requires w > 0.0 && a < b
    ensures a / w < b / w
  {
  }
}
