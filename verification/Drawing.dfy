/** Clipping a drawing operation: from a rectangle asked for to the pixels that are drawn, and
    the pixels of source and mask that go with them. */
module Drawing {
  import opened Geometry

  /** What clipping needs to know of an image. A replicated image repeats its rectangle for ever. */
  datatype Image = Image(r: Rect, clipr: Rect, repl: bool)

  predicate Drawable(i: Image) {
    Solid(i.r) && Solid(i.clipr)
  }

  /** The remainder as the C language has it: with the sign of the dividend. */
  function Rem(a: int, b: int): int
    requires b != 0
  {
    if a >= 0 then a % b else -((-a) % b)
  }

  /** `x` moved by a multiple of the width so that it is at least `min` and less than `max`. */
  function DrawReplXY(min: int, max: int, x: int): (r: int)
    requires min < max
    ensures min <= r < max && (r - x) % (max - min) == 0
  {
    var sx := Rem(x - min, max - min);
    RemIsCongruent(x - min, max - min);
    if sx < 0 then sx + (max - min) + min else sx + min
  }

  lemma RemIsCongruent(a: int, b: int)
    requires b > 0
    ensures -b < Rem(a, b) < b && (Rem(a, b) - a) % b == 0 && (Rem(a, b) + b - a) % b == 0
  {
    var q := if a >= 0 then a / b else -((-a) / b);
    var r := Rem(a, b);
    assert r == a - q * b by {
      if a >= 0 {
        assert a == (a / b) * b + a % b;
      } else {
        assert -a == ((-a) / b) * b + (-a) % b;
      }
    }
    assert r - a == (-q) * b && r + b - a == (1 - q) * b;
    MultipleIsZero(-q, b);
    MultipleIsZero(1 - q, b);
  }

  lemma MultipleIsZero(k: int, b: int)
    requires b > 0
    ensures k * b % b == 0
  {
    var r := k * b % b;
    var q := k * b / b;
    assert k * b == q * b + r;
    assert (k - q) * b == r;
    assert k - q >= 1 ==> (k - q) * b >= b;
    assert k - q <= -1 ==> (k - q) * b <= -b;
  }

  function DrawRepl(r: Rect, p: Point): (q: Point)
    requires Solid(r)
    ensures In(q, r) && Congruent(r, p, q)
  {
    Point(DrawReplXY(r.min.x, r.max.x, p.x), DrawReplXY(r.min.y, r.max.y, p.y))
  }

  /** The two points show the same pixel of the image that repeats `r`. */
  predicate Congruent(r: Rect, p: Point, q: Point)
    requires Solid(r)
  {
    (q.x - p.x) % (r.max.x - r.min.x) == 0 && (q.y - p.y) % (r.max.y - r.min.y) == 0
  }

  /** The image can be drawn from at `p`. */
  predicate Offers(i: Image, p: Point) {
    (i.repl || In(p, i.r)) && In(p, i.clipr)
  }

  /** The point `p` of the destination is to be drawn on, when `r` is asked for and `p0` and
      `p1` are the points of source and mask that go with its corner. */
  predicate Wanted(dst: Image, r: Rect, src: Image, p0: Point, mask: Image, p1: Point, p: Point) {
    && In(p, r) && In(p, dst.r) && In(p, dst.clipr)
    && Offers(src, AddPt(SubPt(p, r.min), p0)) && Offers(mask, AddPt(SubPt(p, r.min), p1))
  }

  predicate SameSize(a: Rect, b: Rect) {
    a.max.x - a.min.x == b.max.x - b.min.x && a.max.y - a.min.y == b.max.y - b.min.y
  }

  function RectAddPt(r: Rect, p: Point): Rect {
    Rect(AddPt(r.min, p), AddPt(r.max, p))
  }

  /** Narrows `r` to where the image can be drawn from. */
  method ClipTo(r: Rect, i: Image) returns (ok: bool, c: Rect)
    requires Solid(r) && Drawable(i)
    ensures ok <==> exists p :: In(p, r) && Offers(i, p)
    ensures ok ==> Solid(c) && forall p :: In(p, c) <==> In(p, r) && Offers(i, p)
  {
    c := r;
    if !i.repl {
      ok, c := RectClip(c, i.r);
      if !ok {
        return;
      }
    }
    ok, c := RectClip(c, i.clipr);
  }

  function Neg(p: Point): Point {
    Point(-p.x, -p.y)
  }

  /** `c` is the part of `r` for which the image, `d` away, can be drawn from. */
  ghost predicate Narrowed(c: Rect, r: Rect, d: Point, i: Image) {
    Solid(c) && forall p :: In(p, c) <==> In(p, r) && Offers(i, AddPt(p, d))
  }

  ghost predicate Nowhere(r: Rect, d: Point, i: Image) {
    !exists p :: In(p, r) && Offers(i, AddPt(p, d))
  }

  /** As `ClipTo`, for a rectangle that is the image of `r` under a shift. */
  method ClipShifted(s: Rect, ghost r: Rect, ghost d: Point, i: Image) returns (ok: bool, c: Rect, ghost part: Rect)
    requires Solid(r) && Drawable(i) && s == RectAddPt(r, d)
    ensures ok ==> Narrowed(part, r, d, i) && c == RectAddPt(part, d)
    ensures !ok ==> Nowhere(r, d, i)
  {
    ok, c := ClipTo(s, i);
    part := RectAddPt(c, Neg(d));
    forall p ensures In(p, r) <==> In(AddPt(p, d), s) { }
    forall p ensures In(p, part) <==> In(AddPt(p, d), c) { }
  }

  /** The part of `r` that lies in the destination. */
  method ClipDest(r: Rect, dst: Image) returns (ok: bool, c: Rect)
    requires Drawable(dst)
    ensures ok ==> Solid(c) && forall p :: In(p, c) <==> In(p, r) && In(p, dst.r) && In(p, dst.clipr)
    ensures !ok ==> !exists p :: In(p, r) && In(p, dst.r) && In(p, dst.clipr)
  {
    c := r;
    if r.min.x >= r.max.x || r.min.y >= r.max.y {
      return false, c;
    }
    ok, c := RectClip(c, dst.r);
    if !ok {
      return;
    }
    ok, c := RectClip(c, dst.clipr);
  }

  lemma Shifted(r0: Rect, p0: Point)
    ensures forall p :: AddPt(SubPt(p, r0.min), p0) == AddPt(p, SubPt(p0, r0.min))
  {
  }

  /** Nothing is wanted, or just the points of `part`. */
  ghost predicate Result(ok: bool, part: Rect, dst: Image, r0: Rect, src: Image, p0: Point, mask: Image, p1: Point) {
    && (ok <==> exists p :: Wanted(dst, r0, src, p0, mask, p1, p))
    && (ok ==> Solid(part) && forall p :: In(p, part) <==> Wanted(dst, r0, src, p0, mask, p1, p))
  }

  lemma NothingWanted(dst: Image, r0: Rect, src: Image, p0: Point, mask: Image, p1: Point, r: Rect, part: Rect, any: Rect)
    requires (!exists p :: In(p, r0) && In(p, dst.r) && In(p, dst.clipr))
      || ((forall p :: In(p, r) <==> In(p, r0) && In(p, dst.r) && In(p, dst.clipr))
          && (Nowhere(r, SubPt(p0, r0.min), src) || (Narrowed(part, r, SubPt(p0, r0.min), src) && Nowhere(part, SubPt(p1, r0.min), mask))))
    ensures Result(false, any, dst, r0, src, p0, mask, p1)
  {
    hide In;
    Shifted(r0, p0);
    Shifted(r0, p1);
  }

  lemma AllWanted(dst: Image, r0: Rect, src: Image, p0: Point, mask: Image, p1: Point, r: Rect, part1: Rect, part: Rect)
    requires forall p :: In(p, r) <==> In(p, r0) && In(p, dst.r) && In(p, dst.clipr)
    requires Narrowed(part1, r, SubPt(p0, r0.min), src) && Narrowed(part, part1, SubPt(p1, r0.min), mask)
    ensures Result(true, part, dst, r0, src, p0, mask, p1)
  {
    Shifted(r0, p0);
    Shifted(r0, p1);
    assert In(part.min, part);
    assert Wanted(dst, r0, src, p0, mask, p1, part.min);
  }

  /** The rectangles for a drawing operation, if there is anything to draw: `r` is the part of
      the destination that is wanted, `sr` and `mr` are as large, and where source or mask is
      repeated they are moved to where its pixels really are. */
  method DrawClip(dst: Image, r0: Rect, src: Image, p0: Point, mask: Image, p1: Point) returns (ok: bool, r: Rect, sr: Rect, mr: Rect)
    requires Drawable(dst) && Drawable(src) && Drawable(mask)
    ensures ok <==> exists p :: Wanted(dst, r0, src, p0, mask, p1, p)
    ensures ok ==> Solid(r) && forall p :: In(p, r) <==> Wanted(dst, r0, src, p0, mask, p1, p)
    ensures ok ==> SameSize(sr, r) && SameSize(mr, r)
    ensures ok ==> In(sr.min, src.r) && In(mr.min, mask.r)
    ensures ok && !src.repl ==> sr.min == AddPt(SubPt(r.min, r0.min), p0)
    ensures ok && !mask.repl ==> mr.min == AddPt(SubPt(r.min, r0.min), p1)
    ensures ok ==> Congruent(src.r, AddPt(SubPt(r.min, r0.min), p0), sr.min) && Congruent(mask.r, AddPt(SubPt(r.min, r0.min), p1), mr.min)
  {
    hide In, Result, Narrowed, Nowhere, Wanted, Offers, Congruent;
    ghost var d0, d1 := SubPt(p0, r0.min), SubPt(p1, r0.min);
    ghost var part1, part := r0, r0;
    r, sr, mr := r0, r0, r0;
    var q0, q1 := p0, p1;
    var rmin, splitcoords := r.min, p0.x != p1.x || p0.y != p1.y;
    ok, r := ClipDest(r, dst);
    if !ok {
      NothingWanted(dst, r0, src, p0, mask, p1, r, r, r);
      ResultMeans(false, r, dst, r0, src, p0, mask, p1);
      return;
    }
    ghost var r1 := r;
    q0 := AddPt(q0, SubPt(r.min, rmin));
    q1 := AddPt(q1, SubPt(r.min, rmin));
    sr := Rect(q0, Point(q0.x + r.max.x - r.min.x, q0.y + r.max.y - r.min.y));
    ok, sr, part1 := ClipShifted(sr, r, d0, src);
    if !ok {
      NothingWanted(dst, r0, src, p0, mask, p1, r, r, r);
      ResultMeans(false, r, dst, r0, src, p0, mask, p1);
      return;
    }
    IsSolid(part1, r, d0, src);
    if splitcoords {
      q1 := AddPt(q1, SubPt(sr.min, q0));
      mr := Rect(q1, Point(q1.x + sr.max.x - sr.min.x, q1.y + sr.max.y - sr.min.y));
      var omr := mr;
      ok, mr, part := ClipShifted(mr, part1, d1, mask);
      if !ok {
        NothingWanted(dst, r0, src, p0, mask, p1, r, part1, r);
        ResultMeans(false, r, dst, r0, src, p0, mask, p1);
        return;
      }
      sr := Rect(AddPt(sr.min, SubPt(mr.min, omr.min)), AddPt(sr.max, SubPt(mr.max, omr.max)));
      q1 := mr.min;
    } else {
      ok, sr, part := ClipShifted(sr, part1, d1, mask);
      if !ok {
        NothingWanted(dst, r0, src, p0, mask, p1, r, part1, r);
        ResultMeans(false, r, dst, r0, src, p0, mask, p1);
        return;
      }
      q1 := sr.min;
    }
    r := RectAddPt(sr, SubPt(r.min, q0));
    assert r == part && sr == RectAddPt(part, d0) && q1 == AddPt(part.min, d1);
    assert r.min == part.min && AddPt(SubPt(r.min, r0.min), p0) == sr.min && AddPt(SubPt(r.min, r0.min), p1) == q1;
    AllWanted(dst, r0, src, p0, mask, p1, r1, part1, part);
    ResultMeans(true, part, dst, r0, src, p0, mask, p1);
    CornerOffered(part, part1, r1, d0, d1, src, mask);
    sr, mr := MoveInto(sr, src, q1, mask);
  }

  /** Moves source and mask rectangle to where the pixels are. */
  method MoveInto(sr0: Rect, src: Image, q1: Point, mask: Image) returns (sr: Rect, mr: Rect)
    requires Drawable(src) && Drawable(mask) && (!src.repl ==> In(sr0.min, src.r)) && (!mask.repl ==> In(q1, mask.r))
    ensures SameSize(sr, sr0) && SameSize(mr, sr0) && In(sr.min, src.r) && In(mr.min, mask.r)
    ensures !src.repl ==> sr.min == sr0.min
    ensures !mask.repl ==> mr.min == q1
    ensures Congruent(src.r, sr0.min, sr.min) && Congruent(mask.r, q1, mr.min)
  {
    hide Congruent, In, DrawRepl;
    sr := sr0;
    if src.repl {
      sr := RectAddPt(sr, SubPt(DrawRepl(src.r, sr.min), sr.min));
      assert sr.min == DrawRepl(src.r, sr0.min);
    } else {
      AlreadyIn(src.r, sr.min);
    }
    var p1 := DrawRepl(mask.r, q1);
    if !mask.repl {
      AlreadyIn(mask.r, q1);
    }
    mr := Rect(p1, Point(p1.x + sr.max.x - sr.min.x, p1.y + sr.max.y - sr.min.y));
  }

  lemma ResultMeans(ok: bool, part: Rect, dst: Image, r0: Rect, src: Image, p0: Point, mask: Image, p1: Point)
    requires Result(ok, part, dst, r0, src, p0, mask, p1)
    ensures ok <==> exists p :: Wanted(dst, r0, src, p0, mask, p1, p)
    ensures ok ==> Solid(part) && forall p :: In(p, part) <==> Wanted(dst, r0, src, p0, mask, p1, p)
  {
  }

  lemma IsSolid(c: Rect, r: Rect, d: Point, i: Image)
    requires Narrowed(c, r, d, i)
    ensures Solid(c)
  {
  }

  lemma CornerOffered(part: Rect, part1: Rect, r: Rect, d0: Point, d1: Point, src: Image, mask: Image)
    requires Narrowed(part1, r, d0, src) && Narrowed(part, part1, d1, mask)
    ensures !src.repl ==> In(AddPt(part.min, d0), src.r)
    ensures !mask.repl ==> In(AddPt(part.min, d1), mask.r)
  {
    assert In(part.min, part);
  }

  /** A point that is in the rectangle is not moved. */
  lemma AlreadyIn(r: Rect, p: Point)
    requires Solid(r) && In(p, r)
    ensures DrawRepl(r, p) == p
  {
    SmallMultiple(DrawRepl(r, p).x - p.x, r.max.x - r.min.x);
    SmallMultiple(DrawRepl(r, p).y - p.y, r.max.y - r.min.y);
  }

  lemma SmallMultiple(a: int, b: int)
    requires b > 0 && -b < a < b && a % b == 0
    ensures a == 0
  {
    var q := a / b;
    assert a == q * b;
    assert q >= 1 ==> q * b >= b;
    assert q <= -1 ==> q * b <= -b;
  }

  /** If the corners match, every pixel does: the point that `sr` has for `p` shows the pixel
      that was asked for. */
  lemma PixelsMatch(repeated: Rect, r0: Rect, p0: Point, r: Rect, sr: Rect, p: Point)
    requires Solid(repeated) && Congruent(repeated, AddPt(SubPt(r.min, r0.min), p0), sr.min)
    ensures Congruent(repeated, AddPt(SubPt(p, r0.min), p0), AddPt(SubPt(p, r.min), sr.min))
  {
    var a, b := AddPt(SubPt(r.min, r0.min), p0), AddPt(SubPt(p, r0.min), p0);
    var c := AddPt(SubPt(p, r.min), sr.min);
    assert c.x - b.x == sr.min.x - a.x && c.y - b.y == sr.min.y - a.y;
  }
}
