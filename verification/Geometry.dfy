/** Points and rectangles. A rectangle contains its least point but not its greatest. */
module Geometry {
  datatype Point = Point(x: int, y: int)
  datatype Rect = Rect(min: Point, max: Point)

  function AddPt(p: Point, q: Point): Point {
    Point(p.x + q.x, p.y + q.y)
  }

  function SubPt(p: Point, q: Point): Point {
    Point(p.x - q.x, p.y - q.y)
  }

  predicate In(p: Point, r: Rect) {
    r.min.x <= p.x < r.max.x && r.min.y <= p.y < r.max.y
  }

  predicate Solid(r: Rect) {
    r.min.x < r.max.x && r.min.y < r.max.y
  }

  predicate RectXRect(r: Rect, s: Rect) {
    r.min.x < s.max.x && s.min.x < r.max.x && r.min.y < s.max.y && s.min.y < r.max.y
  }

  predicate RectInRect(r: Rect, s: Rect) {
    s.min.x <= r.min.x && r.max.x <= s.max.x && s.min.y <= r.min.y && r.max.y <= s.max.y
  }

  function Max(a: int, b: int): int {
    if a < b then b else a
  }

  /** Rectangles that are not empty overlap if and only if they have a point in common. */
  lemma OverlapIsCommonPoint(r: Rect, s: Rect)
    requires Solid(r) && Solid(s)
    ensures RectXRect(r, s) <==> exists p :: In(p, r) && In(p, s)
  {
    if RectXRect(r, s) {
      var p := Point(Max(r.min.x, s.min.x), Max(r.min.y, s.min.y));
      assert In(p, r) && In(p, s);
    }
  }

  /** A rectangle that is not empty lies in another if and only if all its points do. */
  lemma InsideIsAllPoints(r: Rect, s: Rect)
    requires Solid(r)
    ensures RectInRect(r, s) <==> forall p :: In(p, r) ==> In(p, s)
  {
    if forall p :: In(p, r) ==> In(p, s) {
      assert In(r.min, r);
      assert In(Point(r.max.x - 1, r.max.y - 1), r);
    }
  }

  /** The test for overlap is right if and only if neither rectangle is empty, when it says
      that there is one: an empty rectangle may pass it. */
  lemma OverlapExact(r: Rect, s: Rect)
    ensures (RectXRect(r, s) <==> exists p :: In(p, r) && In(p, s)) <==> (RectXRect(r, s) ==> Solid(r) && Solid(s))
  {
    if Solid(r) && Solid(s) {
      OverlapIsCommonPoint(r, s);
    }
  }

  /** Narrows `r` to what it has in common with `b`, if there is any. */
  method RectClip(r: Rect, b: Rect) returns (ok: bool, c: Rect)
    ensures ok <==> RectXRect(r, b)
    ensures ok ==> forall p :: In(p, c) <==> In(p, r) && In(p, b)
    ensures !ok ==> c == r && !exists p :: In(p, r) && In(p, b)
    ensures Solid(r) && Solid(b) ==> (ok <==> exists p :: In(p, r) && In(p, b)) && (ok ==> Solid(c))
  {
    OverlapExact(r, b);
    c := r;
    if !(r.min.x < b.max.x && b.min.x < r.max.x && r.min.y < b.max.y && b.min.y < r.max.y) {
      return false, c;
    }
    if c.min.x < b.min.x {
      c := c.(min := c.min.(x := b.min.x));
    }
    if c.min.y < b.min.y {
      c := c.(min := c.min.(y := b.min.y));
    }
    if c.max.x > b.max.x {
      c := c.(max := c.max.(x := b.max.x));
    }
    if c.max.y > b.max.y {
      c := c.(max := c.max.(y := b.max.y));
    }
    return true, c;
  }
}
