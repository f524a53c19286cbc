/**
 * Collision and distance helpers of the game server (server/server.js:106-128).
 * Coordinates are exact reals; the square root of `distance` is replaced by a
 * comparison of squares, which `SquaredComparisonExact` shows to be equivalent.
 */
module Geometry {

  /** An axis-aligned rectangle given by its top-left corner and its extent. */
  datatype Rect = Rect(x: real, y: real, width: real, height: real)

  /** Strict overlap test: rectangles that only touch along an edge do not collide. */
  predicate CheckCollision(a: Rect, b: Rect)
  {
    a.x < b.x + b.width && a.x + a.width > b.x &&
    a.y < b.y + b.height && a.y + a.height > b.y
  }

  /** The square of side `size` centred at (x, y). */
  function CenteredSquare(x: real, y: real, size: real): Rect
  {
    Rect(x - size / 2.0, y - size / 2.0, size, size)
  }

  /** The square of side `size` centred at (x, y) overlaps some obstacle. */
  predicate Collides(x: real, y: real, size: real, obstacles: seq<Rect>)
  {
    exists i :: 0 <= i < |obstacles| && CheckCollision(CenteredSquare(x, y, size), obstacles[i])
  }

  /** The scan over the obstacles that stops at the first overlap. */
  method CollidesWithObstacle(x: real, y: real, size: real, obstacles: seq<Rect>) returns (hit: bool)
    ensures hit <==> Collides(x, y, size, obstacles)
  {
    var box := CenteredSquare(x, y, size);
    var i := 0;
    while i < |obstacles|
      invariant 0 <= i <= |obstacles|
      invariant forall k :: 0 <= k < i ==> !CheckCollision(box, obstacles[k])
    {
      if CheckCollision(box, obstacles[i]) {
        return true;
      }
      i := i + 1;
    }
    return false;
  }

  /** `distance(x1, y1, x2, y2) < r`, written without the square root. */
  predicate WithinDistance(x1: real, y1: real, x2: real, y2: real, r: real)
  {
    (x2 - x1) * (x2 - x1) + (y2 - y1) * (y2 - y1) < r * r
  }

  /** For a non-negative distance d and radius r, `d < r` holds exactly when `d*d < r*r`,
      so comparing squared distances decides every `distance(...) < r` test. */
  lemma SquaredComparisonExact(d: real, r: real)
    requires 0.0 <= d && 0.0 <= r
    ensures d < r <==> d * d < r * r
  {
    if d < r {
      var dd, dr, rr := d * d, d * r, r * r;
      assert dd <= dr;
      assert dr < rr;
    } else {
      var dd, rd, rr := d * d, r * d, r * r;
      assert rr <= rd;
      assert rd <= dd;
    }
  }

  /** Touching edges (horizontally or vertically) do not count as a collision. */
  lemma TouchingEdgesDoNotCollide(a: Rect, b: Rect)
    requires a.x + a.width == b.x || b.x + b.width == a.x ||
             a.y + a.height == b.y || b.y + b.height == a.y
    ensures !CheckCollision(a, b) && !CheckCollision(b, a)
  {
  }

  /** A square nested inside a square that clears every obstacle clears them too. */
  lemma SmallerSquareClear(x: real, y: real, small: real, large: real, obstacles: seq<Rect>)
    requires 0.0 <= small <= large
    requires !Collides(x, y, large, obstacles)
    ensures !Collides(x, y, small, obstacles)
  {
    forall i | 0 <= i < |obstacles|
      ensures !CheckCollision(CenteredSquare(x, y, small), obstacles[i])
    {
      assert !CheckCollision(CenteredSquare(x, y, large), obstacles[i]);
    }
  }
}
