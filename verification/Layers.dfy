/** Overlapping windows on a screen: which of their pixels are on the screen and which are in
    a save area. */
module Layers {
  import opened Geometry

  type Pixel = int
  type Image = Point -> Pixel

  /** A rectangle on which an operation is to be done, and whether to do it in the save area
      rather than on the screen. */
  datatype Piece = Piece(r: Rect, insave: bool)

  /** The number of pieces that a point is in. */
  ghost function Hits(pieces: seq<Piece>, p: Point): nat {
    if pieces == [] then 0 else (if In(p, pieces[0].r) then 1 else 0) + Hits(pieces[1..], p)
  }

  ghost function One(b: bool): nat {
    if b then 1 else 0
  }

  lemma {:induction false} HitsConcat(a: seq<Piece>, b: seq<Piece>, p: Point)
    ensures Hits(a + b, p) == Hits(a, p) + Hits(b, p)
  {
    if a == [] {
      assert a + b == b;
    } else {
      assert (a + b)[1..] == a[1..] + b;
      HitsConcat(a[1..], b, p);
    }
  }

  lemma HitsConcatAll(a: seq<Piece>, b: seq<Piece>)
    ensures forall p :: Hits(a + b, p) == Hits(a, p) + Hits(b, p)
  {
    forall p ensures Hits(a + b, p) == Hits(a, p) + Hits(b, p) {
      HitsConcat(a, b, p);
    }
  }

  lemma {:induction false} PieceHits(pieces: seq<Piece>, j: nat, p: Point)
    requires j < |pieces| && In(p, pieces[j].r)
    ensures Hits(pieces, p) >= 1
  {
    if j > 0 {
      PieceHits(pieces[1..], j - 1, p);
    }
  }

  /** A window. What it shows is on the screen where no other window covers it, and in
      `save` where one does. */
  class Window {
    const screenr: Rect     // its place on the screen
    const delta: Point      // what is added to its own coordinates to get the screen's
    var save: Image
    var front: Window?      // the window just in front of it
    var rear: Window?       // the window just behind it
    var clear: bool         // whether it is known to be fully visible

    constructor (screenr: Rect, delta: Point, save: Image)
      ensures this.screenr == screenr && this.delta == delta && this.save == save && front == null && rear == null && !clear
    {
      this.screenr, this.delta, this.save, this.front, this.rear, this.clear := screenr, delta, save, null, null, false;
    }
  }

  /** One of the windows numbered from `k` to `n` - 1 covers the point. */
  ghost predicate Covered(order: seq<Window>, k: int, n: int, p: Point) {
    exists j :: k <= j < n && 0 <= j < |order| && In(p, order[j].screenr)
  }

  /** The pieces are right: the operation is done in the save area just where another window
      is in front. */
  ghost predicate Placed(pieces: seq<Piece>, order: seq<Window>, k: int, n: int) {
    forall j :: 0 <= j < |pieces| ==> Solid(pieces[j].r) && forall p :: In(p, pieces[j].r) ==> (pieces[j].insave <==> Covered(order, k, n, p))
  }

  /** The pieces cover all of `r` and nothing else, and do not overlap. */
  ghost predicate Divides(pieces: seq<Piece>, r: Rect) {
    forall p :: Hits(pieces, p) == One(In(p, r))
  }

  /** Some of `r0` has been dealt with; `r` is left. */
  ghost predicate Dividing(pieces: seq<Piece>, r0: Rect, r: Rect) {
    forall p :: Hits(pieces, p) + One(In(p, r)) == One(In(p, r0))
  }

  ghost predicate Distinct(order: seq<Window>) {
    forall j, k :: 0 <= j < k < |order| ==> order[j] != order[k]
  }

  /** `a`, `b` are two parts of `r`. */
  ghost predicate Parts(r: Rect, a: Rect, b: Rect) {
    forall p :: One(In(p, r)) == One(In(p, a)) + One(In(p, b))
  }

  lemma DivideOn(pieces: seq<Piece>, more: seq<Piece>, r0: Rect, r: Rect, part: Rect, left: Rect)
    requires Dividing(pieces, r0, r) && Divides(more, part) && Parts(r, part, left)
    ensures Dividing(pieces + more, r0, left)
  {
    HitsConcatAll(pieces, more);
  }

  lemma PlacedOn(pieces: seq<Piece>, more: seq<Piece>, order: seq<Window>, k: int, n: int, part: Rect)
    requires Placed(pieces, order, k, n) && Placed(more, order, k + 1, n) && Divides(more, part)
    requires 0 <= k < n <= |order| && forall p :: In(p, part) ==> !In(p, order[k].screenr)
    ensures Placed(pieces + more, order, k, n)
  {
    var all := pieces + more;
    forall j, p | 0 <= j < |all| && In(p, all[j].r) ensures all[j].insave <==> Covered(order, k, n, p) {
      if j >= |pieces| {
        assert all[j] == more[j - |pieces|];
        PieceHits(more, j - |pieces|, p);
        CoveredBehind(order, k, n, p);
      }
    }
  }

  lemma CoveredBehind(order: seq<Window>, k: int, n: int, p: Point)
    requires 0 <= k < n <= |order| && !In(p, order[k].screenr)
    ensures Covered(order, k + 1, n, p) <==> Covered(order, k, n, p)
  {
  }

  /** The window number `k` knows its neighbours. */
  ghost predicate LinkedAt(order: seq<Window>, k: int)
    requires 0 <= k < |order|
    reads order`front, order`rear
  {
    && order[k].front == (if k == 0 then null else order[k - 1])
    && order[k].rear == (if k == |order| - 1 then null else order[k + 1])
  }

  ghost predicate VisibleIn(order: seq<Window>, clipr: Rect, n: int, p: Point) {
    In(p, clipr) && !Covered(order, 0, n, p)
  }

  class Screen {
    const r: Rect           // the pixels there are
    const clipr: Rect       // the pixels that may be drawn on
    var image: Image
    var frontmost: Window?
    var rearmost: Window?
    ghost var order: seq<Window>    // from front to rear

    /** A screen without windows. */
    constructor (r: Rect, clipr: Rect, image: Image)
      requires Solid(r) && Solid(clipr) && RectInRect(clipr, r)
      ensures Valid() && order == [] && this.r == r && this.clipr == clipr && this.image == image
    {
      this.r, this.clipr, this.image := r, clipr, image;
      frontmost, rearmost, order := null, null, [];
    }

    /** The windows are doubly linked in the order given. */
    ghost predicate Linked()
      reads this`frontmost, this`rearmost, this`order, order`front, order`rear
    {
      && Distinct(order)
      && frontmost == (if order == [] then null else order[0])
      && rearmost == (if order == [] then null else order[|order| - 1])
      && forall k {:trigger LinkedAt(order, k)} :: 0 <= k < |order| ==> LinkedAt(order, k)
    }

    ghost predicate Shaped()
      reads this`order
    {
      && Solid(clipr) && Solid(r) && RectInRect(clipr, r)
      && forall k :: 0 <= k < |order| ==> Solid(order[k].screenr)
    }

    /** Splits `r0` along the windows from `front` back to `i`. */
    method Layerop(i: Window, r0: Rect, front0: Window, ghost k0: nat, ghost n: nat) returns (pieces: seq<Piece>)
      requires Linked() && Shaped() && Solid(r0)
      requires k0 <= n < |order| && order[k0] == front0 && order[n] == i
      ensures Divides(pieces, r0) && Placed(pieces, order, k0, n)
      decreases n - k0, 1
    {
      hide Placed, Divides, Dividing, Covered, Parts, Linked, LinkedAt, In;
      AllDistinctBut(n);
      var r, front := r0, front0;
      ghost var k := k0;
      while front != i && !RectXRect(r, front.screenr)
        invariant k0 <= k <= n && order[k] == front
        invariant forall p :: In(p, r0) ==> (Covered(order, k, n, p) <==> Covered(order, k0, n, p))
        decreases n - k
      {
        OverlapIsCommonPoint(r, front.screenr);
        forall p | In(p, r0) ensures Covered(order, k, n, p) <==> Covered(order, k + 1, n, p) {
          CoveredBehind(order, k, n, p);
        }
        Behind(k);
        front := front.rear;
        k := k + 1;
      }
      if front == i {
        assert k == n;
        pieces := [Piece(r, false)];
        WholePiece(r, order, n);
        PlacedFrom(pieces, order, k, k0, n, r0);
        return;
      }
      var fr := front.screenr;
      pieces := [];
      NothingPlaced(order, k, n, r);
      if fr.max.y < r.max.y {
        var part, left := Rect(Point(r.min.x, fr.max.y), r.max), r.(max := r.max.(y := fr.max.y));
        CutY(r, fr.max.y);
        pieces := Part(i, part, left, r0, r, front, pieces, k, n);
        r := left;
      }
      if r.min.y < fr.min.y {
        var part, left := Rect(r.min, Point(r.max.x, fr.min.y)), r.(min := r.min.(y := fr.min.y));
        CutY(r, fr.min.y);
        pieces := Part(i, part, left, r0, r, front, pieces, k, n);
        r := left;
      }
      if fr.max.x < r.max.x {
        var part, left := Rect(Point(fr.max.x, r.min.y), r.max), r.(max := r.max.(x := fr.max.x));
        CutX(r, fr.max.x);
        pieces := Part(i, part, left, r0, r, front, pieces, k, n);
        r := left;
      }
      if r.min.x < fr.min.x {
        var part, left := Rect(r.min, Point(fr.min.x, r.max.y)), r.(min := r.min.(x := fr.min.x));
        CutX(r, fr.min.x);
        pieces := Part(i, part, left, r0, r, front, pieces, k, n);
        r := left;
      }
      LastPart(pieces, r0, r, order, k, n);
      pieces := pieces + [Piece(r, true)];
      PlacedFrom(pieces, order, k, k0, n, r0);
    }

    /** Splits the part of `r` that lies outside the window `front`. */
    method Part(i: Window, part: Rect, ghost left: Rect, ghost r0: Rect, ghost r: Rect, front: Window, pieces: seq<Piece>, ghost k: nat, ghost n: nat)
      returns (all: seq<Piece>)
      requires Linked() && Shaped() && Solid(part) && Parts(r, part, left)
      requires k < n < |order| && order[k] == front && order[n] == i
      requires !RectXRect(part, front.screenr)
      requires Dividing(pieces, r0, r) && Placed(pieces, order, k, n)
      ensures Dividing(all, r0, left) && Placed(all, order, k, n)
      decreases n - k, 0
    {
      assert LinkedAt(order, k);
      OverlapIsCommonPoint(part, front.screenr);
      var more := Layerop(i, part, front.rear, k + 1, n);
      DivideOn(pieces, more, r0, r, part, left);
      PlacedOn(pieces, more, order, k, n, part);
      all := pieces + more;
    }

    /** The point `p` of the window number `n` is on the screen, and no window in front covers it. */
    ghost predicate Visible(n: int, p: Point)
      reads this`order
    {
      VisibleIn(order, clipr, n, p)
    }

    ghost predicate ClearOk(n: int)
      reads this`order, order`clear
    {
      0 <= n < |order| && order[n].clear ==> forall p :: In(p, order[n].screenr) ==> Visible(n, p)
    }

    /** The pieces are the part of `r` that lies in the window number `n`, each on the screen
        just where the window is visible. */
    ghost predicate Pieces(pieces: seq<Piece>, r: Rect, n: int)
      reads this`order
    {
      && 0 <= n < |order|
      && (forall p :: Hits(pieces, p) == One(In(p, r) && In(p, order[n].screenr)))
      && (forall j :: 0 <= j < |pieces| ==> Solid(pieces[j].r))
      && (forall j, p :: 0 <= j < |pieces| && In(p, pieces[j].r) ==> (pieces[j].insave <==> !Visible(n, p)))
    }

    /** Splits the part of `screenr0` that lies in the window `i` into pieces on the screen and
        pieces in the save area. */
    method Memlayerop(i: Window, screenr0: Rect, ghost n: nat) returns (pieces: seq<Piece>)
      requires Linked() && Shaped() && Solid(screenr0) && n < |order| && order[n] == i && ClearOk(n)
      ensures Pieces(pieces, screenr0, n)
    {
      hide Linked, Placed, Divides, Dividing, Parts;
      var ok, screenr := RectClip(screenr0, i.screenr);
      if !ok {
        return [];
      }
      if i.clear {
        pieces := [Piece(screenr, false)];
        WholePiece(screenr, order, n);
        ClearPieces(pieces, screenr0, screenr, n);
        return;
      }
      var r, scr := screenr, clipr;
      pieces := [];
      var onScreen, c := RectClip(screenr, scr);
      if onScreen {
        var front := FrontWindow();
        pieces := Layerop(i, c, front, 0, n);
      }
      if RectInRect(r, scr) {
        InScreen(pieces, screenr0, r, c, n);
        return;
      }
      if !RectXRect(r, scr) {
        pieces := [Piece(r, true)];
        OffScreen(screenr0, r, n);
        return;
      }
      var off, left := OffPieces(r);
      BothParts(pieces, off, screenr0, screenr, left, c, n);
      pieces := pieces + off;
    }

    /** The parts of `r0` above, below, left and right of the screen; `left` is the rest. */
    method OffPieces(r0: Rect) returns (off: seq<Piece>, ghost left: Rect)
      requires Solid(r0) && Solid(clipr) && RectXRect(r0, clipr)
      ensures Dividing(off, r0, left) && AllOff(off) && forall p :: In(p, left) <==> In(p, r0) && In(p, clipr)
    {
      hide Dividing, Parts, AllOff;
      var r, scr := r0, clipr;
      off := [];
      NothingOff(r, scr);
      if r.min.y < scr.min.y {
        CutY(r, scr.min.y);
        off := OffPart(off, r0, r, Rect(r.min, Point(r.max.x, scr.min.y)), r.(min := r.min.(y := scr.min.y)));
        r := r.(min := r.min.(y := scr.min.y));
      }
      if r.max.y > scr.max.y {
        CutY(r, scr.max.y);
        off := OffPart(off, r0, r, Rect(Point(r.min.x, scr.max.y), r.max), r.(max := r.max.(y := scr.max.y)));
        r := r.(max := r.max.(y := scr.max.y));
      }
      if r.min.x < scr.min.x {
        CutX(r, scr.min.x);
        off := OffPart(off, r0, r, Rect(r.min, Point(scr.min.x, r.max.y)), r.(min := r.min.(x := scr.min.x)));
        r := r.(min := r.min.(x := scr.min.x));
      }
      if r.max.x > scr.max.x {
        CutX(r, scr.max.x);
        off := OffPart(off, r0, r, Rect(Point(scr.max.x, r.min.y), r.max), r.(max := r.max.(x := scr.max.x)));
        r := r.(max := r.max.(x := scr.max.x));
      }
      left := r;
    }

    method FrontWindow() returns (w: Window)
      requires Linked() && |order| > 0
      ensures w == order[0]
    {
      w := frontmost;
    }

    /** A part of `r` that is not on the screen. */
    method OffPart(off: seq<Piece>, ghost r0: Rect, ghost r: Rect, part: Rect, ghost left: Rect) returns (all: seq<Piece>)
      requires Dividing(off, r0, r) && AllOff(off) && Solid(part) && Parts(r, part, left) && !RectXRect(part, clipr) && Solid(clipr)
      ensures Dividing(all, r0, left) && AllOff(all)
    {
      OverlapIsCommonPoint(part, clipr);
      assert [Piece(part, true)][1..] == [];
      DivideOn(off, [Piece(part, true)], r0, r, part, left);
      all := off + [Piece(part, true)];
    }

    ghost predicate AllOff(off: seq<Piece>) {
      forall j :: 0 <= j < |off| ==> Solid(off[j].r) && off[j].insave && forall p :: In(p, off[j].r) ==> !In(p, clipr)
    }

    lemma NothingOff(r: Rect, scr: Rect)
      ensures Dividing([], r, r) && AllOff([])
    {
    }

    lemma ClearPieces(pieces: seq<Piece>, screenr0: Rect, screenr: Rect, n: int)
      requires 0 <= n < |order| && order[n].clear && ClearOk(n) && Solid(screenr)
      requires pieces == [Piece(screenr, false)] && Divides(pieces, screenr)
      requires forall p :: In(p, screenr) <==> In(p, screenr0) && In(p, order[n].screenr)
      ensures Pieces(pieces, screenr0, n)
    {
    }

    lemma InScreen(pieces: seq<Piece>, screenr0: Rect, r: Rect, c: Rect, n: int)
      requires 0 <= n < |order| && Divides(pieces, c) && Placed(pieces, order, 0, n)
      requires RectInRect(r, clipr) && forall p :: In(p, c) <==> In(p, r) && In(p, clipr)
      requires forall p :: In(p, r) <==> In(p, screenr0) && In(p, order[n].screenr)
      ensures Pieces(pieces, screenr0, n)
    {
      PiecesInside(pieces, c);
    }

    lemma OffScreen(screenr0: Rect, r: Rect, n: int)
      requires 0 <= n < |order| && Solid(r) && Solid(clipr) && !RectXRect(r, clipr)
      requires forall p :: In(p, r) <==> In(p, screenr0) && In(p, order[n].screenr)
      ensures Pieces([Piece(r, true)], screenr0, n)
    {
      OverlapIsCommonPoint(r, clipr);
      assert [Piece(r, true)][1..] == [];
    }

    lemma BothParts(pieces: seq<Piece>, off: seq<Piece>, screenr0: Rect, screenr: Rect, r: Rect, c: Rect, n: int)
      requires 0 <= n < |order| && Divides(pieces, c) && Placed(pieces, order, 0, n)
      requires Dividing(off, screenr, r) && AllOff(off)
      requires forall p :: In(p, c) <==> In(p, screenr) && In(p, clipr)
      requires forall p :: In(p, r) <==> In(p, screenr) && In(p, clipr)
      requires forall p :: In(p, screenr) <==> In(p, screenr0) && In(p, order[n].screenr)
      ensures Pieces(pieces + off, screenr0, n)
    {
      hide Covered;
      var all := pieces + off;
      HitsConcatAll(pieces, off);
      PiecesInside(pieces, c);
      forall j | 0 <= j < |all| ensures Solid(all[j].r) && forall p :: In(p, all[j].r) ==> (all[j].insave <==> !Visible(n, p)) {
        if j < |pieces| {
          assert all[j] == pieces[j];
        } else {
          assert all[j] == off[j - |pieces|];
        }
      }
    }

    /** What was on the screen is put in the save area. */
    method Lhideop(i: Window, piece: Piece)
      modifies i`save
      ensures forall p :: Saved(i, p) == if !piece.insave && In(p, piece.r) then image(p) else old(Saved(i, p))
    {
      if !piece.insave {
        var r := RectSubPt(piece.r, i.delta);
        ghost var save0 := i.save;
        i.save := Copy(i.save, r, image, piece.r.min);
        CopyToSave(save0, image, piece.r, i.delta);
      }
    }

    /** Saves what the window shows in `screenr0`, where it is visible. */
    method Memlhide(i: Window, screenr0: Rect, ghost n: nat)
      requires Linked() && Shaped() && Solid(screenr0) && n < |order| && order[n] == i && ClearOk(n)
      modifies i`save
      ensures forall p :: Saved(i, p) == if In(p, screenr0) && In(p, i.screenr) && Visible(n, p) then image(p) else old(Saved(i, p))
    {
      hide Linked, Visible, Hits;
      var ok, screenr := RectClip(screenr0, r);
      if !ok {
        NowhereVisible(screenr0, n);
        return;
      }
      var pieces := Memlayerop(i, screenr, n);
      var j := 0;
      while j < |pieces|
        modifies i`save
        invariant 0 <= j <= |pieces|
        invariant forall p :: Saved(i, p) == if Touched(pieces, j, p, false) then image(p) else old(Saved(i, p))
      {
        Lhideop(i, pieces[j]);
        j := j + 1;
      }
      TouchedAll(pieces, screenr0, screenr, n);
    }

    /** What was in the save area is put on the screen. */
    method Lexposeop(i: Window, piece: Piece)
      modifies this`image
      ensures forall p :: image(p) == if !piece.insave && In(p, piece.r) then Saved(i, p) else old(image)(p)
    {
      if !piece.insave {
        var r := RectSubPt(piece.r, i.delta);
        ghost var image0 := image;
        image := Copy(image, piece.r, i.save, r.min);
        CopyFromSave(image0, i.save, piece.r, i.delta);
      }
    }

    /** Restores what the window shows in `screenr0`, where it is visible. */
    method Memlexpose(i: Window, screenr0: Rect, ghost n: nat)
      requires Linked() && Shaped() && Solid(screenr0) && n < |order| && order[n] == i && ClearOk(n)
      modifies this`image
      ensures forall p :: image(p) == if In(p, screenr0) && In(p, i.screenr) && Visible(n, p) then Saved(i, p) else old(image)(p)
    {
      hide Linked, Visible, Hits;
      var ok, screenr := RectClip(screenr0, r);
      if !ok {
        NowhereVisible(screenr0, n);
        return;
      }
      var pieces := Memlayerop(i, screenr, n);
      var j := 0;
      while j < |pieces|
        modifies this`image
        invariant 0 <= j <= |pieces|
        invariant forall p :: image(p) == if Touched(pieces, j, p, false) then Saved(i, p) else old(image)(p)
      {
        Lexposeop(i, pieces[j]);
        j := j + 1;
      }
      TouchedAll(pieces, screenr0, screenr, n);
    }

    lemma NowhereVisible(screenr0: Rect, n: int)
      requires Shaped() && !exists p :: In(p, screenr0) && In(p, r)
      ensures forall p :: In(p, screenr0) ==> !Visible(n, p)
    {
      InsideIsAllPoints(clipr, r);
    }

    lemma TouchedAll(pieces: seq<Piece>, screenr0: Rect, screenr: Rect, n: int)
      requires Shaped() && Pieces(pieces, screenr, n) && forall p :: In(p, screenr) <==> In(p, screenr0) && In(p, r)
      ensures forall p :: Touched(pieces, |pieces|, p, false) <==> In(p, screenr0) && In(p, order[n].screenr) && Visible(n, p)
    {
      InsideIsAllPoints(clipr, r);
      forall p ensures Touched(pieces, |pieces|, p, false) <==> In(p, screenr0) && In(p, order[n].screenr) && Visible(n, p) {
        if In(p, screenr) && In(p, order[n].screenr) {
          var j := SomeHit(pieces, p);
        }
        forall j | 0 <= j < |pieces| && In(p, pieces[j].r) ensures In(p, screenr) && In(p, order[n].screenr) {
          PieceHits(pieces, j, p);
        }
      }
    }

    ghost predicate AllClearOk()
      reads this`order, order`clear
    {
      forall n {:trigger ClearOk(n)} :: 0 <= n < |order| ==> ClearOk(n)
    }

    /** What the window number `n` contains at the point `p` of the screen. */
    ghost function Content(n: int, p: Point): Pixel
      requires 0 <= n < |order|
      reads this`order, this`image, order`save
    {
      if Visible(n, p) then image(p) else Saved(order[n], p)
    }

    /** What the window `w` contains at the point `p` of the screen. */
    ghost function Shown(w: Window, p: Point): Pixel
      requires w in order
      reads this`order, this`image, order`save
    {
      Content(Index(order, w), p)
    }

    lemma SolidWindow(k: nat)
      requires Shaped() && k < |order|
      ensures Solid(order[k].screenr)
    {
    }

    /** Exchanges the window number `n` and the one in front of it in the screen's list. */
    method Swap(i: Window, f: Window, ghost n: nat)
      requires Linked() && 0 < n < |order| && order[n] == i && order[n - 1] == f
      modifies this`frontmost, this`rearmost, this`order, order
      ensures Linked() && order == Swapped(old(order), n)
      ensures forall k :: 0 <= k < |order| ==> old(order)[k].save == old(order[k].save) && old(order)[k].clear == old(order[k].clear)
    {
      assert LinkedAt(order, n - 1) && LinkedAt(order, n);
      ghost var o := order;
      var ff, rr := f.front, i.rear;
      if ff == null {
        frontmost := i;
      } else {
        ff.rear := i;
      }
      if rr == null {
        rearmost := f;
      } else {
        rr.front := f;
      }
      i.front := ff;
      i.rear := f;
      f.front := i;
      f.rear := rr;
      order := Swapped(order, n);
      forall k | 0 <= k < |order| ensures LinkedAt(order, k) {
        if k < n - 1 || k > n {
          assert order[k] == o[k] && o[k] != i && o[k] != f;
          assert old(LinkedAt(o, k));
        }
      }
    }

    /** The exchange leaves every window known to be visible visible, if the one that goes
        behind is not known to be. */
    method SwapClear(i: Window, f: Window, ghost n: nat)
      requires Linked() && AllClearOk() && 0 < n < |order| && order[n] == i && order[n - 1] == f
      requires f.clear ==> !exists p :: In(p, i.screenr) && In(p, f.screenr)
      modifies this`frontmost, this`rearmost, this`order, order
      ensures Linked() && AllClearOk() && order == Swapped(old(order), n)
      ensures forall k :: 0 <= k < |order| ==> old(order)[k].save == old(order[k].save) && old(order)[k].clear == old(order[k].clear)
    {
      hide Linked, Covered, VisibleIn, In, Swapped, Distinct;
      ghost var o := order;
      Swap(i, f, n);
      SwapAt(o, n);
      forall k | 0 <= k < |order| ensures ClearOk(k) {
        assert old(ClearOk(Moved(k, n)));
        assert o[Moved(k, n)].clear ==> old(order[Moved(k, n)].clear);
        StepClear(o, n, Moved(k, n));
      }
    }

    /** Pulls `i` in front of `f`, which is just in front of it. What `f` had on the screen
        is saved; if `fill`, what `i` now shows there is drawn. */
    method PassInFront(i: Window, f: Window, fill: bool, ghost n: nat)
      requires Linked() && Shaped() && AllClearOk() && 0 < n < |order| && order[n] == i && order[n - 1] == f
      modifies this, order
      ensures Linked() && Shaped() && AllClearOk() && order == Swapped(old(order), n)
      ensures forall k, p :: 0 <= k < |order| && In(p, old(order)[k].screenr) && (k != n || fill) ==>
        Content(Moved(k, n), p) == old(Content(k, p))
      ensures !fill ==> image == old(image)
      ensures forall k :: 0 <= k < |order| ==>
        (old(order)[k].clear <==> old(order[k].clear) && !(k == n - 1 && RectXRect(i.screenr, f.screenr)))
    {
      hide Linked, Covered, Hits, VisibleIn, In, Swapped, Distinct;
      AllDistinctBut(n - 1);
      SolidWindow(n);
      SolidWindow(n - 1);
      ghost var o, image0 := order, image;
      var overlap, x := RectClip(i.screenr, f.screenr);
      if overlap {
        Memlhide(f, x, n - 1);
        f.clear := false;
        forall k | 0 <= k < |order| ensures ClearOk(k) {
          assert old(ClearOk(k));
        }
      }
      SwapClear(i, f, n);
      SwapAt(o, n);
      if overlap && fill {
        Memlexpose(i, x, n - 1);
      }
      forall k, p | 0 <= k < |order| && In(p, o[k].screenr) && (k != n || fill)
        ensures Content(Moved(k, n), p) == old(Content(k, p))
      {
        assert o[k] == f <==> k == n - 1;
        StepContent(o, n, clipr, fill, image0(p), image(p), old(Saved(o[k], p)), Saved(o[k], p), Saved(i, p), k, p);
      }
    }

    lemma Behind(k: nat)
      requires Linked() && k + 1 < |order|
      ensures order[k].rear == order[k + 1]
    {
      assert LinkedAt(order, k);
    }

    lemma AllDistinctBut(n: nat)
      requires Linked() && n < |order|
      ensures forall k :: 0 <= k < |order| ==> (order[k] == order[n] <==> k == n)
    {
    }

    /** A window that was fully visible still is, unless the other one has come in front of it. */
    lemma StepClear(o: seq<Window>, n: nat, k: nat)
      requires 0 < n < |o| && k < |o| && order == Swapped(o, n)
      requires o[k].clear ==> forall p :: In(p, o[k].screenr) ==> VisibleIn(o, clipr, k, p)
      requires o[n - 1].clear ==> !exists p :: In(p, o[n].screenr) && In(p, o[n - 1].screenr)
      ensures ClearOk(Moved(k, n))
    {
      hide Covered;
      SwapAt(o, n);
      forall p | o[k].clear && In(p, o[k].screenr) ensures VisibleIn(order, clipr, Moved(k, n), p) {
        SwapCovers(o, n, k, p);
      }
    }

    /** As `PassInFront`, told of windows rather than of their numbers. */
    method Pass(i: Window, f: Window, fill: bool, ghost n: nat)
      requires Linked() && Shaped() && AllClearOk() && 0 < n < |order| && order[n] == i && order[n - 1] == f
      modifies this, order
      ensures Linked() && Shaped() && AllClearOk() && order == Swapped(old(order), n)
      ensures forall w :: w in order <==> w in old(order)
      ensures forall w, p :: w in old(order) && In(p, w.screenr) && (w != i || fill) ==> Shown(w, p) == old(Shown(w, p))
      ensures !fill ==> image == old(image)
    {
      hide Linked, AllClearOk, Swapped, Content, In, Shaped;
      ghost var o := order;
      AllDistinctBut(n);
      LinkedDistinct();
      PassInFront(i, f, fill, n);
      SwappedSame(o, n);
      forall w, p | w in o && In(p, w.screenr) && (w != i || fill) ensures Shown(w, p) == old(Shown(w, p)) {
        IndexMoved(o, n, w);
        assert Content(Moved(Index(o, w), n), p) == old(Content(Index(o, w), p));
      }
    }

    lemma LinkedDistinct()
      requires Linked()
      ensures Distinct(order)
    {
    }

    lemma FrontOf(n: nat)
      requires Linked() && n < |order|
      ensures order[n].front == (if n == 0 then null else order[n - 1]) && order[n].rear == (if n + 1 == |order| then null else order[n + 1])
    {
      assert LinkedAt(order, n);
    }

    /** Pulls `i` towards the top of the screen, just behind `front`, which is in front of it
        and has the number `m` - 1, or to the top if that is nil. */
    method PullToFront(i: Window, front: Window?, fill: bool, ghost m: nat, ghost n0: nat)
      requires Linked() && Shaped() && AllClearOk() && m <= n0 < |order| && order[n0] == i
      requires front == if m == 0 then null else order[m - 1]
      modifies this, order
      ensures Linked() && Shaped() && AllClearOk() && order == Pulled(old(order), n0, m)
      ensures forall w :: w in order <==> w in old(order)
      ensures forall w, p :: w in old(order) && In(p, w.screenr) && (w != i || fill) ==> Shown(w, p) == old(Shown(w, p))
      ensures !fill ==> image == old(image)
    {
      hide Linked, AllClearOk, Swapped, Shown, In, Shaped, Pulled;
      ghost var n, o := n0, order;
      PulledAll(o, n0);
      LinkedDistinct();
      FrontOf(n);
      while i.front != front
        invariant m <= n <= n0 && Linked() && Shaped() && AllClearOk() && order == Pulled(o, n0, n) && |order| == |o| && order[n] == i
        invariant i.front == if n == 0 then null else order[n - 1]
        invariant order[..n] == o[..n]
        invariant forall w :: w in order <==> w in o
        invariant forall w, p :: w in o && In(p, w.screenr) && (w != i || fill) ==> Shown(w, p) == old(Shown(w, p))
        invariant !fill ==> image == old(image)
        invariant fresh(Elements(order) - old(Elements(order)))
        decreases n
      {
        PulledOn(o, n0, n);
        Pass(i, i.front, fill, n);
        n := n - 1;
        FrontOf(n);
      }
      if m > 0 {
        AllDistinctBut(m - 1);
      }
    }

    /** Pushes `i` towards the bottom of the screen, just in front of `rear`, which is behind
        it and has the number `m` + 1, or to the bottom if that is nil. For `i` to pass behind
        a window is for that window to pass in front of `i`. */
    method PushToRear(i: Window, rear: Window?, ghost m: nat, ghost n0: nat)
      requires Linked() && Shaped() && AllClearOk() && n0 <= m < |order| && order[n0] == i
      requires rear == if m + 1 == |order| then null else order[m + 1]
      modifies this, order
      ensures Linked() && Shaped() && AllClearOk() && order == Pushed(old(order), n0, m)
      ensures forall w :: w in order <==> w in old(order)
      ensures forall w, p :: w in old(order) && In(p, w.screenr) ==> Shown(w, p) == old(Shown(w, p))
    {
      hide Linked, AllClearOk, Swapped, Shown, In, Shaped, Pushed;
      ghost var n, o := n0, order;
      PushedNone(o, n0);
      LinkedDistinct();
      FrontOf(n);
      while i.rear != rear
        invariant n0 <= n <= m && Linked() && Shaped() && AllClearOk() && order == Pushed(o, n0, n) && |order| == |o| && order[n] == i
        invariant i.rear == if n + 1 == |order| then null else order[n + 1]
        invariant order[n + 1..] == o[n + 1..]
        invariant forall w :: w in order <==> w in o
        invariant forall w, p :: w in o && In(p, w.screenr) ==> Shown(w, p) == old(Shown(w, p))
        invariant fresh(Elements(order) - old(Elements(order)))
        decreases m - n
      {
        PushedOn(o, n0, n);
        Pass(i.rear, i, true, n + 1);
        n := n + 1;
        FrontOf(n);
      }
      if m + 1 < |order| {
        AllDistinctBut(m + 1);
      }
    }

    /** No part of the window number `n` is covered or off the screen. */
    ghost predicate FullyVisible(n: nat)
      requires n < |order|
      reads this`order
    {
      forall p :: In(p, order[n].screenr) ==> Visible(n, p)
    }

    /** Finds out which windows are fully visible. */
    method Memlsetclear()
      requires Linked() && Shaped()
      modifies order`clear
      ensures Linked() && AllClearOk()
      ensures forall k :: 0 <= k < |order| ==> (order[k].clear <==> FullyVisible(k))
    {
      hide Linked, In, Shaped, Visible;
      LinkedEnds();
      var i := rearmost;
      ghost var k := |order|;
      while i != null
        modifies order`clear
        invariant 0 <= k <= |order| && Linked() && i == if k == 0 then null else order[k - 1]
        invariant forall j :: k <= j < |order| ==> (order[j].clear <==> FullyVisible(j))
        decreases k
      {
        k := k - 1;
        FrontOf(k);
        AllDistinctBut(k);
        SolidScreen();
        SolidWindow(k);
        InsideIsAllPoints(i.screenr, clipr);
        var clear := RectInRect(i.screenr, clipr);
        if clear {
          var j := i.front;
          ghost var n: nat := k;
          while j != null
            invariant 0 <= n <= k && j == (if n == 0 then null else order[n - 1]) && Linked()
            invariant clear && forall p :: In(p, i.screenr) ==> !Covered(order, n, k, p)
            invariant forall j :: k < j < |order| ==> (order[j].clear <==> FullyVisible(j))
            decreases n
          {
            n := n - 1;
            FrontOf(n);
            SolidWindow(n);
            OverlapIsCommonPoint(i.screenr, j.screenr);
            if RectXRect(i.screenr, j.screenr) {
              IsCovered(n, k);
              clear := false;
              break;
            }
            NotCovered(n, k);
            j := j.front;
          }
        }
        if clear {
          IsVisible(k);
        } else if !RectInRect(i.screenr, clipr) {
          IsOff(k);
        }
        i.clear := clear;
        i := i.front;
      }
    }

    lemma IsCovered(n: nat, k: nat)
      requires n < k < |order| && exists p :: In(p, order[k].screenr) && In(p, order[n].screenr)
      ensures !FullyVisible(k)
    {
    }

    lemma IsOff(k: nat)
      requires k < |order| && !forall p :: In(p, order[k].screenr) ==> In(p, clipr)
      ensures !FullyVisible(k)
    {
    }

    lemma IsVisible(k: nat)
      requires k < |order| && (forall p :: In(p, order[k].screenr) ==> In(p, clipr)) && forall p :: In(p, order[k].screenr) ==> !Covered(order, 0, k, p)
      ensures FullyVisible(k)
    {
    }

    lemma LinkedEnds()
      requires Linked()
      ensures frontmost == (if order == [] then null else order[0]) && rearmost == (if order == [] then null else order[|order| - 1])
    {
    }

    lemma SolidScreen()
      requires Shaped()
      ensures Solid(clipr)
    {
    }

    lemma NotCovered(n: nat, k: nat)
      requires n < k < |order| && !exists p :: In(p, order[k].screenr) && In(p, order[n].screenr)
      requires forall p :: In(p, order[k].screenr) ==> !Covered(order, n + 1, k, p)
      ensures forall p :: In(p, order[k].screenr) ==> !Covered(order, n, k, p)
    {
    }

    ghost predicate Valid()
      reads this`frontmost, this`rearmost, this`order, order`front, order`rear, order`clear
    {
      Linked() && Shaped() && AllClearOk()
    }

    /** Puts a new window behind all others. */
    method AddRear(w: Window)
      requires Valid() && Solid(w.screenr) && w !in order && w.front == null && w.rear == null && !w.clear
      modifies this`frontmost, this`rearmost, this`order, w`front, order`rear
      ensures Valid() && order == old(order) + [w]
      ensures forall v, p :: v in old(order) ==> Shown(v, p) == old(Shown(v, p))
    {
      ghost var o := order;
      var last := rearmost;
      w.front := last;
      if last != null {
        last.rear := w;
      }
      rearmost := w;
      if frontmost == null {
        frontmost := w;
      }
      order := order + [w];
      forall k | 0 <= k < |order| ensures LinkedAt(order, k) {
        assert k < |o| ==> order[k] == o[k] && old(LinkedAt(o, k));
      }
      forall n | 0 <= n < |order| ensures ClearOk(n) {
        assert n < |o| ==> order[n] == o[n] && old(ClearOk(n));
        CoveredAppend(o, w, n);
      }
      forall v, p | v in o ensures Shown(v, p) == old(Shown(v, p)) {
        IndexAppend(o, w, v);
        CoveredAppend(o, w, Index(o, v));
      }
    }

    /** One piece of a window is painted. */
    method Fillop(i: Window, piece: Piece, c: Pixel)
      modifies this`image, i`save
      ensures forall p :: image(p) == if !piece.insave && In(p, piece.r) then c else old(image)(p)
      ensures forall p :: Saved(i, p) == if piece.insave && In(p, piece.r) then c else old(Saved(i, p))
    {
      ShiftedIn(piece.r, i.delta);
      if piece.insave {
        i.save := Painted(i.save, RectSubPt(piece.r, i.delta), c);
      } else {
        image := Painted(image, piece.r, c);
      }
    }

    /** Paints all of a window: on the screen where it is visible, in the save area elsewhere. */
    method Memfill(i: Window, c: Pixel, ghost n: nat)
      requires Linked() && Shaped() && n < |order| && order[n] == i && ClearOk(n)
      modifies this`image, i`save
      ensures forall p :: image(p) == if In(p, i.screenr) && Visible(n, p) then c else old(image)(p)
      ensures forall p :: Saved(i, p) == if In(p, i.screenr) && !Visible(n, p) then c else old(Saved(i, p))
    {
      hide Linked, Visible, Hits;
      SolidWindow(n);
      var pieces := Memlayerop(i, i.screenr, n);
      var j := 0;
      while j < |pieces|
        modifies this`image, i`save
        invariant 0 <= j <= |pieces|
        invariant forall p :: image(p) == if Touched(pieces, j, p, false) then c else old(image)(p)
        invariant forall p :: Saved(i, p) == if Touched(pieces, j, p, true) then c else old(Saved(i, p))
      {
        Fillop(i, pieces[j], c);
        j := j + 1;
      }
      TouchedWhole(pieces, n);
    }

    lemma TouchedWhole(pieces: seq<Piece>, n: int)
      requires 0 <= n < |order| && Pieces(pieces, order[n].screenr, n)
      ensures forall p, s :: Touched(pieces, |pieces|, p, s) <==> In(p, order[n].screenr) && (s <==> !Visible(n, p))
    {
      forall p, s ensures Touched(pieces, |pieces|, p, s) <==> In(p, order[n].screenr) && (s <==> !Visible(n, p)) {
        if In(p, order[n].screenr) {
          var j := SomeHit(pieces, p);
        }
        forall j | 0 <= j < |pieces| && In(p, pieces[j].r) ensures In(p, order[n].screenr) {
          PieceHits(pieces, j, p);
        }
      }
    }

    /** Paints all of the uppermost window. */
    method PaintFront(w: Window, c: Pixel)
      requires Valid() && |order| > 0 && order[0] == w
      modifies this`image, w`save
      ensures forall p :: In(p, w.screenr) ==> Shown(w, p) == c
      ensures forall v, p :: v in order && v != w ==> Shown(v, p) == old(Shown(v, p))
    {
      hide Linked, Shaped, In;
      assert ClearOk(0);
      Memfill(w, c, 0);
      assert Index(order, w) == 0;
      forall v, p | v in order && v != w ensures Shown(v, p) == old(Shown(v, p)) {
        CoveredByFirst(order, Index(order, v), p);
      }
    }

    /** A new window, on top of all others. No window loses anything of what it contains. If
        `fill`, the new one is painted; if not, the screen still shows what it did. */
    method Memlalloc(screenr: Rect, save: Image, fill: bool, c: Pixel) returns (w: Window)
      requires Valid() && Solid(screenr)
      modifies this, order
      ensures Valid() && fresh(w) && w.screenr == screenr && order == [w] + old(order)
      ensures forall v, p :: v in old(order) && In(p, v.screenr) ==> v in order && Shown(v, p) == old(Shown(v, p))
      ensures if fill then forall p :: In(p, screenr) ==> Shown(w, p) == c else image == old(image)
      ensures forall k :: 0 <= k < |order| ==> (order[k].clear <==> FullyVisible(k))
    {
      hide Linked, AllClearOk, Shaped, Shown, In, FullyVisible;
      ghost var o := order;
      w := new Window(screenr, Point(0, 0), if fill then (_ => c) else save);
      AddRear(w);
      PullToFront(w, null, fill, 0, |o|);
      assert Pulled(o + [w], |o|, 0) == [w] + o;
      Memlsetclear();
      if fill {
        PaintFront(w, c);
      }
    }

    /** Brings a window to the top. No window loses anything of what it contains. */
    method Memltofront(i: Window)
      requires Valid() && i in order
      modifies this, order
      ensures Valid() && order == Pulled(old(order), Index(old(order), i), 0)
      ensures forall w, p :: w in old(order) && In(p, w.screenr) ==> w in order && Shown(w, p) == old(Shown(w, p))
      ensures forall k :: 0 <= k < |order| ==> (order[k].clear <==> FullyVisible(k))
    {
      hide Linked, AllClearOk, Shaped, Shown, In, FullyVisible, Pulled;
      PullToFront(i, null, true, 0, Index(order, i));
      assert fresh(Elements(order) - old(Elements(order)));
      Memlsetclear();
    }

    /** Sends a window to the bottom. */
    method Memltorear(i: Window)
      requires Valid() && i in order
      modifies this, order
      ensures Valid() && order == Pushed(old(order), Index(old(order), i), |old(order)| - 1)
      ensures forall w, p :: w in old(order) && In(p, w.screenr) ==> w in order && Shown(w, p) == old(Shown(w, p))
      ensures forall k :: 0 <= k < |order| ==> (order[k].clear <==> FullyVisible(k))
    {
      hide Linked, AllClearOk, Shaped, Shown, In, FullyVisible, Pushed;
      PushToRear(i, null, |order| - 1, Index(order, i));
      assert fresh(Elements(order) - old(Elements(order)));
      Memlsetclear();
    }

    /** The windows number 0 to `j` - 1 of `ip` are in front, the others as in `o`. */
    ghost predicate Pulling(o: seq<Window>, ip: seq<Window>, j: nat)
      reads this`frontmost, this`rearmost, this`order, order`front, order`rear, order`clear
    {
      j <= |ip| && Valid() && order == ip[..j] + Others(o, ip[..j])
    }

    /** Brings the next of several windows in front of the others. */
    method PullNext(ip: seq<Window>, j: nat, front: Window?, ghost o: seq<Window>)
      requires Pulling(o, ip, j) && j < |ip| && Distinct(ip) && ip[j] in order
      requires front == (if j == 0 then null else ip[j - 1]) && forall w :: w in order <==> w in o
      modifies this, order
      ensures Pulling(o, ip, j + 1) && forall w :: w in order <==> w in o
      ensures fresh(Elements(order) - old(Elements(order)))
      ensures forall w, p :: w in o && In(p, w.screenr) ==> Shown(w, p) == old(Shown(w, p))
    {
      hide Linked, AllClearOk, Shaped, Shown, In, Pulled, Distinct, Others, Index, Visible;
      LinkedDistinct();
      OthersNext(o, ip, j, order);
      PullToFront(ip[j], front, true, j, Index(order, ip[j]));
    }

    /** Brings several windows to the top, the first of them uppermost. */
    method Memltofrontn(ip: seq<Window>)
      requires Valid() && Distinct(ip) && forall w :: w in ip ==> w in order
      modifies this, order
      ensures Valid() && order == ip + Others(old(order), ip)
      ensures forall w, p :: w in old(order) && In(p, w.screenr) ==> w in order && Shown(w, p) == old(Shown(w, p))
      ensures |ip| > 0 ==> forall k :: 0 <= k < |order| ==> (order[k].clear <==> FullyVisible(k))
    {
      hide Linked, AllClearOk, Shaped, Shown, In, FullyVisible, Distinct, Others, Visible, Index;
      ghost var o := order;
      AllOthers(o);
      assert ip[..0] == [];
      var front: Window? := null;
      var j := 0;
      while j < |ip|
        invariant 0 <= j <= |ip| && Pulling(o, ip, j)
        invariant front == if j == 0 then null else ip[j - 1]
        invariant forall w :: w in order <==> w in o
        invariant forall w, p :: w in o && In(p, w.screenr) ==> Shown(w, p) == old(Shown(w, p))
        invariant fresh(Elements(order) - old(Elements(order)))
      {
        PullNext(ip, j, front, o);
        front := ip[j];
        j := j + 1;
      }
      assert ip[..j] == ip;
      if |ip| > 0 {
        Memlsetclear();
      }
    }

    /** Sends several windows to the bottom, the first of them lowest. */
    method Memltorearn(ip: seq<Window>)
      requires Valid() && Distinct(ip) && forall w :: w in ip ==> w in order
      modifies this, order
      ensures Valid() && order == Others(old(order), ip) + Reversed(ip)
      ensures forall w, p :: w in old(order) && In(p, w.screenr) ==> w in order && Shown(w, p) == old(Shown(w, p))
      ensures |ip| > 0 ==> forall k :: 0 <= k < |order| ==> (order[k].clear <==> FullyVisible(k))
    {
      hide Linked, AllClearOk, Shaped, Shown, In, FullyVisible, Pushed, Distinct, Others, Visible, Reversed;
      ghost var o := order;
      AllOthers(o);
      NoneReversed();
      assert ip[..0] == [];
      var rear: Window? := null;
      var j := 0;
      while j < |ip|
        invariant 0 <= j <= |ip| && Valid() && order == Others(o, ip[..j]) + Reversed(ip[..j])
        invariant |order| == |o| && rear == if j == 0 then null else ip[j - 1]
        invariant forall w :: w in order <==> w in o
        invariant forall w, p :: w in o && In(p, w.screenr) ==> Shown(w, p) == old(Shown(w, p))
        invariant fresh(Elements(order) - old(Elements(order)))
      {
        LinkedDistinct();
        OthersNextRear(o, ip, j, order);
        PushToRear(ip[j], rear, |order| - 1 - j, Index(order, ip[j]));
        rear := ip[j];
        j := j + 1;
      }
      assert ip[..j] == ip;
      if |ip| > 0 {
        Memlsetclear();
      }
    }
  }

  /** The windows that are not among `ip`, in the order they were in. */
  ghost function Others(o: seq<Window>, ip: seq<Window>): seq<Window> {
    if o == [] then [] else (if o[0] in ip then [] else [o[0]]) + Others(o[1..], ip)
  }

  lemma {:induction false} AllOthers(o: seq<Window>)
    ensures Others(o, []) == o
  {
    if o != [] {
      AllOthers(o[1..]);
    }
  }

  lemma {:induction false} OthersSame(o: seq<Window>, ip: seq<Window>, w: Window)
    requires w !in Others(o, ip)
    ensures Others(o, ip + [w]) == Others(o, ip)
    decreases |o|
  {
    if o != [] {
      assert o[0] !in ip ==> Others(o, ip)[0] == o[0];
      assert forall v :: v in Others(o[1..], ip) ==> v in Others(o, ip);
      OthersSame(o[1..], ip, w);
    }
  }

  lemma {:induction false} OthersWithout(o: seq<Window>, ip: seq<Window>, w: Window, n: nat)
    requires Distinct(Others(o, ip)) && n < |Others(o, ip)| && Others(o, ip)[n] == w
    ensures Others(o, ip + [w]) == Others(o, ip)[..n] + Others(o, ip)[n + 1..]
    decreases |o|
  {
    hide Distinct;
    var all, rest := Others(o, ip), Others(o[1..], ip);
    if o[0] in ip {
      assert all == rest;
      OthersWithout(o[1..], ip, w, n);
    } else {
      assert all == [o[0]] + rest;
      DistinctTail(o[0], rest, n);
      if n == 0 {
        OthersSame(o[1..], ip, w);
      } else {
        OthersWithout(o[1..], ip, w, n - 1);
        assert all[..n] == [o[0]] + rest[..n - 1] && all[n + 1..] == rest[n..];
      }
    }
  }

  lemma DistinctTail(w: Window, rest: seq<Window>, n: nat)
    requires Distinct([w] + rest) && n <= |rest|
    ensures Distinct(rest) && w !in rest && (n > 0 ==> ([w] + rest)[n] == rest[n - 1] && rest[n - 1] != w)
  {
    var all := [w] + rest;
    assert forall k :: 0 <= k < |rest| ==> rest[k] == all[k + 1];
    assert all[0] == w;
  }

  /** Pulling the window number `j` of `ip` puts it behind those before it. */
  lemma OthersNext(o: seq<Window>, ip: seq<Window>, j: nat, order: seq<Window>)
    requires j < |ip| && Distinct(ip) && Distinct(order) && ip[j] in order && order == ip[..j] + Others(o, ip[..j])
    ensures j <= Index(order, ip[j]) && Pulled(order, Index(order, ip[j]), j) == ip[..j + 1] + Others(o, ip[..j + 1])
    ensures j > 0 ==> order[j - 1] == ip[j - 1]
  {
    hide Others, Index, Pulled, Distinct;
    var others, n := Others(o, ip[..j]), Index(order, ip[j]);
    FirstDiffer(ip, j, order, others);
    assert ip[..j + 1] == ip[..j] + [ip[j]];
    DistinctPart(order, j);
    OthersWithout(o, ip[..j], ip[j], n - j);
    PulledPast(order, ip[..j], others, n);
  }

  lemma FirstDiffer(ip: seq<Window>, j: nat, order: seq<Window>, others: seq<Window>)
    requires j < |ip| && Distinct(ip) && ip[j] in order && order == ip[..j] + others
    ensures j <= Index(order, ip[j]) && others == order[j..] && others[Index(order, ip[j]) - j] == ip[j]
    ensures j > 0 ==> order[j - 1] == ip[j - 1]
  {
    hide Index;
    assert forall a :: 0 <= a < j ==> order[a] == ip[a] && order[a] != ip[j];
  }

  ghost function Reversed(s: seq<Window>): (r: seq<Window>)
    ensures |r| == |s| && forall w :: w in r ==> w in s
  {
    if s == [] then [] else [s[|s| - 1]] + Reversed(s[..|s| - 1])
  }

  lemma NoneReversed()
    ensures Reversed([]) == []
  {
  }

  /** Pushing the window number `j` of `ip` puts it in front of those before it. */
  lemma OthersNextRear(o: seq<Window>, ip: seq<Window>, j: nat, order: seq<Window>)
    requires j < |ip| && Distinct(ip) && Distinct(order) && ip[j] in order && order == Others(o, ip[..j]) + Reversed(ip[..j])
    ensures Index(order, ip[j]) < |order| - j
    ensures Pushed(order, Index(order, ip[j]), |order| - 1 - j) == Others(o, ip[..j + 1]) + Reversed(ip[..j + 1])
    ensures j > 0 ==> order[|order| - j] == ip[j - 1]
  {
    hide Others, Index, Pushed, Distinct;
    var others, rear, n := Others(o, ip[..j]), Reversed(ip[..j]), Index(order, ip[j]);
    NotReversed(ip, j);
    InFirstPart(order, others, rear, ip[j]);
    assert ip[..j + 1] == ip[..j] + [ip[j]] && ip[..j + 1][..j] == ip[..j];
    DistinctFirst(others, rear);
    OthersWithout(o, ip[..j], ip[j], n);
    PushedPast(order, others, rear, n);
    assert j > 0 ==> rear[0] == ip[j - 1];
  }

  lemma NotReversed(ip: seq<Window>, j: nat)
    requires j < |ip| && Distinct(ip)
    ensures ip[j] !in Reversed(ip[..j])
  {
  }

  lemma InFirstPart(order: seq<Window>, others: seq<Window>, rear: seq<Window>, w: Window)
    requires order == others + rear && w in order && w !in rear
    ensures Index(order, w) < |others|
  {
    hide Index;
    forall k | |others| <= k < |order| ensures order[k] != w {
      assert rear[k - |others|] in rear;
    }
  }

  lemma DistinctFirst(a: seq<Window>, b: seq<Window>)
    requires Distinct(a + b)
    ensures Distinct(a)
  {
    assert forall k :: 0 <= k < |a| ==> (a + b)[k] == a[k];
  }

  lemma PushedPast(order: seq<Window>, others: seq<Window>, rear: seq<Window>, n: nat)
    requires order == others + rear && n < |others|
    ensures Pushed(order, n, |others| - 1) == (others[..n] + others[n + 1..]) + ([order[n]] + rear)
  {
    var m := |others| - 1;
    assert order[..n] == others[..n] && order[n + 1..m + 1] == others[n + 1..] && order[m + 1..] == rear;
  }

  lemma DistinctPart(order: seq<Window>, j: nat)
    requires Distinct(order) && j <= |order|
    ensures Distinct(order[j..])
  {
  }

  lemma PulledPast(order: seq<Window>, first: seq<Window>, others: seq<Window>, n: nat)
    requires order == first + others && |first| <= n < |order|
    ensures var j := |first|; Pulled(order, n, j) == first + [order[n]] + (others[..n - j] + others[n - j + 1..])
  {
    var j := |first|;
    assert order[..j] == first && order[j..n] == others[..n - j] && order[n + 1..] == others[n - j + 1..];
  }

  ghost function Elements(order: seq<Window>): set<Window> {
    set w | w in order
  }

  /** The window number `n0` has been pulled to the place `n`; the others are as they were. */
  ghost function Pulled(o: seq<Window>, n0: nat, n: nat): seq<Window>
    requires n <= n0 < |o|
  {
    o[..n] + [o[n0]] + o[n..n0] + o[n0 + 1..]
  }

  lemma PulledAll(o: seq<Window>, n0: nat)
    requires n0 < |o|
    ensures Pulled(o, n0, n0) == o
  {
  }

  lemma PulledOn(o: seq<Window>, n0: nat, n: nat)
    requires 0 < n <= n0 < |o|
    ensures |Pulled(o, n0, n)| == |o| && Swapped(Pulled(o, n0, n), n) == Pulled(o, n0, n - 1)
    ensures Pulled(o, n0, n - 1)[n - 1] == o[n0] && Pulled(o, n0, n - 1)[..n - 1] == o[..n - 1]
  {
    var a, b := Pulled(o, n0, n), Pulled(o, n0, n - 1);
    forall j | 0 <= j < |o| ensures Swapped(a, n)[j] == b[j] { }
  }

  /** The window number `n0` has been pushed back to the place `n`; the others are as they were. */
  ghost function Pushed(o: seq<Window>, n0: nat, n: nat): (r: seq<Window>)
    requires n0 <= n < |o|
    ensures |r| == |o|
  {
    o[..n0] + o[n0 + 1..n + 1] + [o[n0]] + o[n + 1..]
  }

  lemma PushedNone(o: seq<Window>, n0: nat)
    requires n0 < |o|
    ensures Pushed(o, n0, n0) == o
  {
  }

  lemma PushedOn(o: seq<Window>, n0: nat, n: nat)
    requires n0 <= n && n + 1 < |o|
    ensures |Pushed(o, n0, n)| == |o| && Swapped(Pushed(o, n0, n), n + 1) == Pushed(o, n0, n + 1)
    ensures Pushed(o, n0, n + 1)[n + 1] == o[n0] && Pushed(o, n0, n + 1)[n + 2..] == o[n + 2..]
  {
    var a, b := Pushed(o, n0, n), Pushed(o, n0, n + 1);
    forall j | 0 <= j < |o| ensures Swapped(a, n + 1)[j] == b[j] { }
  }

  lemma SwappedSame(o: seq<Window>, n: nat)
    requires 0 < n < |o|
    ensures forall w :: w in Swapped(o, n) <==> w in o
  {
    SwapAt(o, n);
    forall k | 0 <= k < |o| ensures Swapped(o, n)[Moved(k, n)] == o[k] { }
  }

  lemma IndexMoved(o: seq<Window>, n: nat, w: Window)
    requires 0 < n < |o| && w in o && Distinct(o)
    ensures w in Swapped(o, n) && Index(Swapped(o, n), w) == Moved(Index(o, w), n)
  {
    SwapAt(o, n);
    var k := Index(o, w);
    assert Swapped(o, n)[Moved(k, n)] == w;
  }

  ghost function Index(order: seq<Window>, w: Window): (k: nat)
    requires w in order
    ensures k < |order| && order[k] == w
  {
    if order[0] == w then 0 else 1 + Index(order[1..], w)
  }

  lemma {:induction false} IndexAppend(order: seq<Window>, w: Window, v: Window)
    requires v in order
    ensures Index(order + [w], v) == Index(order, v)
    decreases |order|
  {
    if order[0] != v {
      assert (order + [w])[1..] == order[1..] + [w];
      IndexAppend(order[1..], w, v);
    }
  }

  /** A window at the rear covers no other. */
  lemma CoveredAppend(order: seq<Window>, w: Window, n: nat)
    requires n <= |order|
    ensures forall p :: Covered(order + [w], 0, n, p) <==> Covered(order, 0, n, p)
  {
    forall p ensures Covered(order + [w], 0, n, p) <==> Covered(order, 0, n, p) {
      assert forall j :: 0 <= j < n ==> (order + [w])[j] == order[j];
    }
  }

  lemma CoveredByFirst(order: seq<Window>, n: int, p: Point)
    requires 0 < n < |order|
    ensures In(p, order[0].screenr) ==> Covered(order, 0, n, p)
  {
  }

  ghost function Swapped(order: seq<Window>, n: nat): (r: seq<Window>)
    requires 0 < n < |order|
    ensures |r| == |order|
  {
    order[n - 1 := order[n]][n := order[n - 1]]
  }

  /** Where the exchange of the windows number `n` and `n` - 1 takes the window number `k`. */
  function Moved(k: int, n: int): int {
    if k == n then n - 1 else if k == n - 1 then n else k
  }

  lemma SwapAt(o: seq<Window>, n: nat)
    requires 0 < n < |o|
    ensures forall j :: 0 <= j < |o| ==> Swapped(o, n)[j] == o[Moved(j, n)]
  {
  }

  lemma CoveredOne(o: seq<Window>, k: nat, p: Point)
    requires k < |o|
    ensures Covered(o, 0, k + 1, p) <==> Covered(o, 0, k, p) || In(p, o[k].screenr)
  {
  }

  lemma CoveredSame(o: seq<Window>, o': seq<Window>, k: nat, p: Point)
    requires k <= |o| && k <= |o'| && o[..k] == o'[..k]
    ensures Covered(o, 0, k, p) <==> Covered(o', 0, k, p)
  {
    forall j | 0 <= j < k ensures o[j] == o'[j] {
      assert o[..k][j] == o'[..k][j];
    }
  }

  lemma CoveredMore(o: seq<Window>, o': seq<Window>, m: nat, k: nat, p: Point)
    requires m <= k <= |o| == |o'| && (Covered(o, 0, m, p) <==> Covered(o', 0, m, p)) && forall j :: m <= j < |o| ==> o[j] == o'[j]
    ensures Covered(o, 0, k, p) <==> Covered(o', 0, k, p)
    decreases k
  {
    hide Covered;
    if k > m {
      CoveredMore(o, o', m, k - 1, p);
      CoveredOne(o, k - 1, p);
      CoveredOne(o', k - 1, p);
    }
  }

  /** What the exchange changes is whether the two windows cover each other. */
  lemma SwapCovers(o: seq<Window>, n: nat, k: nat, p: Point)
    requires 0 < n < |o| && k < |o|
    ensures var c := Covered(o, 0, n - 1, p);
      && (Covered(o, 0, n, p) <==> c || In(p, o[n - 1].screenr))
      && (Covered(Swapped(o, n), 0, n - 1, p) <==> c)
      && (Covered(Swapped(o, n), 0, n, p) <==> c || In(p, o[n].screenr))
    ensures k < n - 1 || k > n ==> (Covered(Swapped(o, n), 0, k, p) <==> Covered(o, 0, k, p))
  {
    hide Covered;
    var o' := Swapped(o, n);
    CoveredSame(o, o', n - 1, p);
    CoveredOne(o, n - 1, p);
    CoveredOne(o', n - 1, p);
    CoveredOne(o, n, p);
    CoveredOne(o', n, p);
    if k < n - 1 {
      CoveredSame(o, o', k, p);
    } else if k > n {
      CoveredMore(o, o', n + 1, k, p);
    }
  }

  /** At each point the exchange leaves what a window contains as it was: what `o[n - 1]` had
      on the screen has been saved, and what `o[n]` shows now has been drawn. */
  lemma StepContent(o: seq<Window>, n: nat, clipr: Rect, fill: bool, image0: Pixel, image1: Pixel, saved0: Pixel, saved1: Pixel, savedI: Pixel, k: nat, p: Point)
    requires 0 < n < |o| && k < |o| && In(p, o[k].screenr) && (k != n || fill)
    requires var both := In(p, o[n].screenr) && In(p, o[n - 1].screenr);
      && saved1 == (if k == n - 1 && both && VisibleIn(o, clipr, n - 1, p) then image0 else saved0)
      && image1 == (if fill && both && VisibleIn(Swapped(o, n), clipr, n - 1, p) then savedI else image0)
    requires k == n ==> savedI == saved0
    ensures (if VisibleIn(Swapped(o, n), clipr, Moved(k, n), p) then image1 else saved1) == (if VisibleIn(o, clipr, k, p) then image0 else saved0)
  {
    SwapCovers(o, n, k, p);
  }

  function RectSubPt(r: Rect, p: Point): Rect {
    Rect(SubPt(r.min, p), SubPt(r.max, p))
  }

  /** The image after a copy, to `r`, of what `src` has from `sp` on. */
  function Copy(dst: Image, r: Rect, src: Image, sp: Point): Image {
    (q: Point) => if In(q, r) then src(AddPt(SubPt(q, r.min), sp)) else dst(q)
  }

  lemma ShiftedIn(r: Rect, d: Point)
    ensures forall p :: In(SubPt(p, d), RectSubPt(r, d)) <==> In(p, r)
  {
  }

  function Painted(dst: Image, r: Rect, c: Pixel): Image {
    (q: Point) => if In(q, r) then c else dst(q)
  }

  lemma CopyToSave(save: Image, image: Image, r: Rect, delta: Point)
    ensures forall p :: Copy(save, RectSubPt(r, delta), image, r.min)(SubPt(p, delta)) == if In(p, r) then image(p) else save(SubPt(p, delta))
  {
    forall p ensures AddPt(SubPt(SubPt(p, delta), SubPt(r.min, delta)), r.min) == p { }
  }

  lemma CopyFromSave(image: Image, save: Image, r: Rect, delta: Point)
    ensures forall p :: Copy(image, r, save, SubPt(r.min, delta))(p) == if In(p, r) then save(SubPt(p, delta)) else image(p)
  {
    forall p ensures AddPt(SubPt(p, r.min), SubPt(r.min, delta)) == SubPt(p, delta) { }
  }

  /** What the window has saved for the point `p` of the screen. */
  ghost function Saved(w: Window, p: Point): Pixel
    reads w`save
  {
    w.save(SubPt(p, w.delta))
  }

  /** One of the first `n` pieces has the point, in the save area or on the screen. */
  ghost predicate Touched(pieces: seq<Piece>, n: int, p: Point, insave: bool) {
    exists j :: 0 <= j < n && j < |pieces| && pieces[j].insave == insave && In(p, pieces[j].r)
  }

  lemma {:induction false} SomeHit(pieces: seq<Piece>, p: Point) returns (j: nat)
    requires Hits(pieces, p) >= 1
    ensures j < |pieces| && In(p, pieces[j].r)
  {
    if In(p, pieces[0].r) {
      j := 0;
    } else {
      var k := SomeHit(pieces[1..], p);
      j := k + 1;
    }
  }

  /** A horizontal cut. */
  lemma CutY(r: Rect, y: int)
    requires Solid(r) && r.min.y < y < r.max.y
    ensures var above, below := Rect(r.min, Point(r.max.x, y)), Rect(Point(r.min.x, y), r.max);
      && Solid(above) && Solid(below) && Parts(r, above, below) && Parts(r, below, above)
  {
  }

  /** A vertical cut. */
  lemma CutX(r: Rect, x: int)
    requires Solid(r) && r.min.x < x < r.max.x
    ensures var left, right := Rect(r.min, Point(x, r.max.y)), Rect(Point(x, r.min.y), r.max);
      && Solid(left) && Solid(right) && Parts(r, left, right) && Parts(r, right, left)
  {
  }

  lemma WholePiece(r: Rect, order: seq<Window>, n: int)
    requires Solid(r)
    ensures Divides([Piece(r, false)], r) && Placed([Piece(r, false)], order, n, n)
  {
    forall p ensures Hits([Piece(r, false)], p) == One(In(p, r)) {
      assert [Piece(r, false)][1..] == [];
    }
  }

  lemma NothingPlaced(order: seq<Window>, k: int, n: int, r0: Rect)
    ensures Dividing([], r0, r0) && Placed([], order, k, n)
  {
  }

  lemma PiecesInside(pieces: seq<Piece>, c: Rect)
    requires Divides(pieces, c)
    ensures forall j, p :: 0 <= j < |pieces| && In(p, pieces[j].r) ==> In(p, c)
  {
    forall j, p | 0 <= j < |pieces| && In(p, pieces[j].r) ensures In(p, c) {
      PieceHits(pieces, j, p);
    }
  }

  lemma PlacedFrom(pieces: seq<Piece>, order: seq<Window>, k: int, k0: int, n: int, r0: Rect)
    requires Placed(pieces, order, k, n) && Divides(pieces, r0)
    requires forall p :: In(p, r0) ==> (Covered(order, k, n, p) <==> Covered(order, k0, n, p))
    ensures Placed(pieces, order, k0, n)
  {
    forall j, p | 0 <= j < |pieces| && In(p, pieces[j].r) ensures pieces[j].insave <==> Covered(order, k0, n, p) {
      PieceHits(pieces, j, p);
    }
  }

  /** What is left lies inside the window number `k`. */
  lemma LastPart(pieces: seq<Piece>, r0: Rect, r: Rect, order: seq<Window>, k: int, n: int)
    requires Dividing(pieces, r0, r) && Placed(pieces, order, k, n)
    requires 0 <= k < n <= |order| && Solid(r) && RectInRect(r, order[k].screenr)
    ensures Divides(pieces + [Piece(r, true)], r0) && Placed(pieces + [Piece(r, true)], order, k, n)
  {
    var last := [Piece(r, true)];
    HitsConcatAll(pieces, last);
    forall p ensures Hits(last, p) == One(In(p, r)) {
      assert last[1..] == [];
    }
  }
}
