/**
 `fujo_gl_line` and `fujo_gl_tri` on the backbuffer: the loops that move the error term and test the
 edge functions, one pixel write at a time. What the set of written pixels looks like is the matter of
 the module on drawing.
 */
module Screen {
  import opened Bytes
  import opened Raster

  /** `as u32` */
  function Cast(v: int): u32 {
    v % 0x1_0000_0000
  }

  /** Whether drawing these points touches the pixel in column c of row r. */
  predicate Hit(ps: seq<Point>, c: nat, r: nat) {
    exists k | 0 <= k < |ps| :: Cast(ps[k].x) == c && Cast(ps[k].y) == r
  }

  /** `color as u32 | 0xFF000000` */
  function Opaque(color: u64): u32 {
    0xFF00_0000 + color % 0x100_0000
  }

  predicate OnPlane(p: Point) {
    FitsI64(p.x) && FitsI64(p.y)
  }

  predicate Drawable(p: Point, q: Point) {
    OnPlane(p) && OnPlane(q) && Roomy(Abs(q.x - p.x), Abs(q.y - p.y))
  }

  predicate Corner(p: Point) {
    0 <= p.x < 0x1_0000_0000 && 0 <= p.y < 0x1_0000_0000
  }

  class Surface {
    const pix: array2<u32>

    constructor (w: nat, h: nat)
      ensures pix.Length0 == h && pix.Length1 == w && fresh(pix)
    {
      pix := new u32[h, w]((_, _) => 0);
    }

    /** `setp`: a point outside the screen is passed over. */
    method SetPixel(x: u32, y: u32, col: u32)
      modifies pix
      ensures forall r, c | 0 <= r < pix.Length0 && 0 <= c < pix.Length1 ::
                pix[r, c] == if c == x && r == y then col else old(pix[r, c])
    {
      if x >= pix.Length1 || y >= pix.Length0 {
        return;
      }
      pix[y, x] := col;
    }

    /** `fujo_gl_line`: exactly the points of the line are painted. */
    method Line(p: Point, q: Point, color: u64)
      requires Drawable(p, q)
      modifies pix
      ensures forall r, c | 0 <= r < pix.Length0 && 0 <= c < pix.Length1 ::
                pix[r, c] == if Hit(LinePoints(p, q), c, r) then Opaque(color) else old(pix[r, c])
    {
      var x, y := p.x, p.y;
      var dx := if q.x - x < 0 then -(q.x - x) else q.x - x;
      var dy := -(if q.y - y < 0 then -(q.y - y) else q.y - y);
      var sx := if x < q.x then 1 else -1;
      var sy := if y < q.y then 1 else -1;
      Trace(p, q, dx, dy, sx, sy, dx + dy, Opaque(color));
    }

    /** The loop of `fujo_gl_line`. */
    method Trace(p: Point, q: Point, dx: int, dy: int, sx: int, sy: int, err0: int, col: u32)
      requires Drawable(p, q) && dx == Abs(q.x - p.x) && dy == 0 - Abs(q.y - p.y) && err0 == dx + dy
      requires sx == Toward(p.x, q.x) && sy == Toward(p.y, q.y)
      modifies pix
      ensures forall r, c | 0 <= r < pix.Length0 && 0 <= c < pix.Length1 ::
                pix[r, c] == if Hit(LinePoints(p, q), c, r) then col else old(pix[r, c])
    {
      var x, y, err := p.x, p.y, err0;
      ghost var all := LinePoints(p, q);
      ghost var at := Walk(0, 0, 0);
      LineStart(p, q, all);
      while true
        invariant Reached(p, q, at, err) && at.k < |all| && all[at.k] == Point(x, y)
        invariant forall r, c | 0 <= r < pix.Length0 && 0 <= c < pix.Length1 ::
                    pix[r, c] == if Hit(all[..at.k], c, r) then col else old(pix[r, c])
        decreases |all| - at.k
      {
        SetPixel(Cast(x), Cast(y), col);
        HitNext(all, at.k, x, y);
        if x == q.x && y == q.y {
          AtEnd(p, q, at, err, all);
          break;
        }
        x, y, err, at := Round(p, q, x, y, dx, dy, sx, sy, err, at, all);
      }
      assert all[..at.k + 1] == all;
    }

    /** One round of the error-term loop: from a point of the line to the next one. */
    static method Round(ghost p: Point, ghost q: Point, x0: int, y0: int, dx: int, dy: int, sx: int, sy: int, err0: int,
                        ghost at: Walk, ghost all: seq<Point>)
      returns (x: int, y: int, err: int, ghost next: Walk)
      requires Drawable(p, q) && all == LinePoints(p, q)
      requires dx == Abs(q.x - p.x) && dy == 0 - Abs(q.y - p.y) && sx == Toward(p.x, q.x) && sy == Toward(p.y, q.y)
      requires Reached(p, q, at, err0) && at.k < |all| && all[at.k] == Point(x0, y0) != q
      ensures next.k == at.k + 1 < |all| && Reached(p, q, next, err) && all[next.k] == Point(x, y)
    {
      x, y, err := Step(x0, y0, dx, dy, sx, sy, err0);
      next := MovedOn(p, q, Pen(x0, y0, err0), at, all, Pen(x, y, err));
    }

    /** Its arithmetic, which wraps. */
    static method Step(x0: int, y0: int, dx: int, dy: int, sx: int, sy: int, err0: int) returns (x: int, y: int, err: int)
      ensures Pen(x, y, err) == Moved(Pen(x0, y0, err0), dx, dy, sx, sy)
    {
      x, y, err := x0, y0, err0;
      var e2 := Wrap64(2 * err);
      if e2 >= dy {
        err := Wrap64(err + dy);
        x := x + sx;
      }
      if e2 <= dx {
        err := Wrap64(err + dx);
        y := y + sy;
      }
    }

    /** `fujo_gl_tri`: the pixels that pass the test in wrapping arithmetic are painted, for corners of 32 bits. */
    method Triangle(u: Point, v: Point, w: Point, color: u64)
      requires Corner(u) && Corner(v) && Corner(w)
      modifies pix
      ensures forall r, c | 0 <= r < pix.Length0 && 0 <= c < pix.Length1 ::
                pix[r, c] == if Painted(u, v, w, Point(c, r)) then Opaque(color) else old(pix[r, c])
    {
      var col := Opaque(color);
      var area := Wrap64(Wrap64((v.x - u.x) * (w.y - u.y)) - Wrap64((w.x - u.x) * (v.y - u.y)));
      WrapDifference((v.x - u.x) * (w.y - u.y), (w.x - u.x) * (v.y - u.y));
      AreaIsEdge(u, v, w);
      if area == 0 {
        return;
      }
      var minX, maxX := Min3(u.x, v.x, w.x), Max3(u.x, v.x, w.x);
      var minY, maxY := Min3(u.y, v.y, w.y), Max3(u.y, v.y, w.y);
      FillRows(u, v, w, minX, maxX, minY, maxY, col, area);
    }

    method FillRows(u: Point, v: Point, w: Point, minX: int, maxX: int, minY: int, maxY: int, col: u32, area: int)
      requires Corner(u) && Corner(v) && Corner(w) && area == Wrap64(Edge(u, v, w)) && area != 0
      requires minX == Min3(u.x, v.x, w.x) && maxX == Max3(u.x, v.x, w.x)
      requires minY == Min3(u.y, v.y, w.y) && maxY == Max3(u.y, v.y, w.y)
      modifies pix
      ensures forall r, c | 0 <= r < pix.Length0 && 0 <= c < pix.Length1 ::
                pix[r, c] == if Painted(u, v, w, Point(c, r)) then col else old(pix[r, c])
    {
      var py := minY;
      while py <= maxY
        invariant minY <= py <= maxY + 1
        invariant forall r, c | 0 <= r < pix.Length0 && 0 <= c < pix.Length1 ::
                    pix[r, c] == if r < py && Painted(u, v, w, Point(c, r)) then col else old(pix[r, c])
      {
        FillRow(u, v, w, py, minX, maxX, col, area);
        py := py + 1;
      }
    }

    /** One row of the fill. */
    method FillRow(u: Point, v: Point, w: Point, py: int, minX: int, maxX: int, col: u32, area: int)
      requires Corner(u) && Corner(v) && Corner(w) && area == Wrap64(Edge(u, v, w)) && area != 0
      requires minX == Min3(u.x, v.x, w.x) && maxX == Max3(u.x, v.x, w.x)
      requires Min3(u.y, v.y, w.y) <= py <= Max3(u.y, v.y, w.y)
      modifies pix
      ensures forall r, c | 0 <= r < pix.Length0 && 0 <= c < pix.Length1 ::
                pix[r, c] == if r == py && Painted(u, v, w, Point(c, r)) then col else old(pix[r, c])
    {
      var px := minX;
      while px <= maxX
        invariant minX <= px <= maxX + 1
        invariant forall r, c | 0 <= r < pix.Length0 && 0 <= c < pix.Length1 ::
                    pix[r, c] == if r == py && c < px && Painted(u, v, w, Point(c, r)) then col else old(pix[r, c])
      {
        var w0 := EdgeValue(u, v, px, py);
        var w1 := EdgeValue(v, w, px, py);
        var w2 := EdgeValue(w, u, px, py);
        var ok := if area > 0 then w0 >= 0 && w1 >= 0 && w2 >= 0 else w0 <= 0 && w1 <= 0 && w2 <= 0;
        assert ok == Painted(u, v, w, Point(px, py));
        if ok {
          SetPixel(px, py, col);
        }
        px := px + 1;
      }
    }
  }

  /** An edge function as the code evaluates it. */
  method EdgeValue(a: Point, b: Point, px: int, py: int) returns (e: int)
    ensures e == Wrap64(Edge(a, b, Point(px, py)))
  {
    WrapDifference((b.x - a.x) * (py - a.y), (b.y - a.y) * (px - a.x));
    return Wrap64(Wrap64((b.x - a.x) * (py - a.y)) - Wrap64((b.y - a.y) * (px - a.x)));
  }

  /** The loop's progress: i and j steps made in k rounds. */
  datatype Walk = Walk(i: nat, j: nat, k: nat)

  /** After k rounds the steps made are those of the line's k-th point, and err is the error term there. */
  ghost predicate Reached(p: Point, q: Point, at: Walk, err: int) {
    var a, b := Abs(q.x - p.x), Abs(q.y - p.y);
    && at.i <= a && at.j <= b && (if a >= b then at.i == at.k else at.j == at.k)
    && (a > 0 || b > 0 ==> Band(at.i, at.j, a, b))
    && err == a - b - (at.i * b - at.j * a)
  }

  lemma LineStart(p: Point, q: Point, all: seq<Point>)
    requires all == LinePoints(p, q)
    ensures Reached(p, q, Walk(0, 0, 0), Abs(q.x - p.x) - Abs(q.y - p.y)) && |all| > 0 && all[0] == p
  {
    LineEnds(p, q);
  }

  /** The steps made lead to the k-th point of the line. */
  lemma OnLine(p: Point, q: Point, at: Walk, err: int, all: seq<Point>)
    requires all == LinePoints(p, q) && at.k < |all| && Reached(p, q, at, err)
    ensures all[at.k] == Point(p.x + Toward(p.x, q.x) * at.i, p.y + Toward(p.y, q.y) * at.j)
  {
    var a, b := Abs(q.x - p.x), Abs(q.y - p.y);
    if a > 0 || b > 0 {
      BandIff(at.i, at.j, a, b);
    }
  }

  /** The loop's end test holds exactly at the last point. */
  lemma AtEnd(p: Point, q: Point, at: Walk, err: int, all: seq<Point>)
    requires all == LinePoints(p, q) && at.k < |all| && Reached(p, q, at, err)
    ensures all[at.k] == q <==> at.i == Abs(q.x - p.x) && at.j == Abs(q.y - p.y)
    ensures all[at.k] == q <==> at.k == |all| - 1
  {
    OnLine(p, q, at, err, all);
    LineEnds(p, q);
  }

  /** The steps and the exact error term of the next round. */
  lemma Advanced(p: Point, q: Point, at: Walk, err: int, all: seq<Point>) returns (next: Walk, exact: int)
    requires all == LinePoints(p, q) && Reached(p, q, at, err) && at.k < |all| && all[at.k] != q
    ensures next.k == at.k + 1 < |all| && Reached(p, q, next, exact)
    ensures var a, b := Abs(q.x - p.x), Abs(q.y - p.y);
            && exact == err - (if 2 * err + b >= 0 then b else 0) + (if 2 * err <= a then a else 0)
            && next.i == at.i + (if 2 * err + b >= 0 then 1 else 0) && next.j == at.j + if 2 * err <= a then 1 else 0
  {
    var a, b := Abs(q.x - p.x), Abs(q.y - p.y);
    AtEnd(p, q, at, err, all);
    var i2, j2 := Advance(at.i, at.j, a, b, err);
    next := Walk(i2, j2, at.k + 1);
    exact := err - (if 2 * err + b >= 0 then b else 0) + if 2 * err <= a then a else 0;
  }

  lemma ReachedFits(p: Point, q: Point, at: Walk, err: int)
    requires Drawable(p, q) && p != q && Reached(p, q, at, err)
    ensures FitsI64(2 * err) && FitsI64(err)
  {
    ErrorFits(at.i, at.j, Abs(q.x - p.x), Abs(q.y - p.y), err);
  }

  /** What a round makes of the pen: the steps made, and the exact error term. */
  lemma PenMoves(p: Point, q: Point, a: nat, b: nat, sx: int, sy: int, was: Pen, at: Walk, all: seq<Point>)
    returns (next: Walk)
    requires Drawable(p, q) && all == LinePoints(p, q) && a == Abs(q.x - p.x) && b == Abs(q.y - p.y)
    requires Reached(p, q, at, was.err) && at.k < |all| && all[at.k] != q
    ensures next.k == at.k + 1 < |all| && at.i <= next.i <= at.i + 1 && at.j <= next.j <= at.j + 1
    ensures var c := Moved(was, a, 0 - b, sx, sy);
            && Reached(p, q, next, c.err)
            && c.x == was.x + (if next.i == at.i then 0 else sx) && c.y == was.y + if next.j == at.j then 0 else sy
  {
    var exact;
    next, exact := Advanced(p, q, at, was.err, all);
    BothFit(p, q, at, was.err, next, exact, all);
    ErrorMoves(was, a, b, sx, sy, exact);
  }

  lemma BothFit(p: Point, q: Point, at: Walk, err: int, next: Walk, exact: int, all: seq<Point>)
    requires Drawable(p, q) && all == LinePoints(p, q) && at.k < |all| && all[at.k] != q
    requires Reached(p, q, at, err) && Reached(p, q, next, exact)
    ensures FitsI64(2 * err) && FitsI64(exact)
  {
    AtEnd(p, q, at, err, all);
    ReachedFits(p, q, at, err);
    ReachedFits(p, q, next, exact);
  }

  /** A round of the loop leads to the next point. */
  lemma MovedOn(p: Point, q: Point, was: Pen, at: Walk, all: seq<Point>, c: Pen) returns (next: Walk)
    requires Drawable(p, q) && all == LinePoints(p, q)
    requires Reached(p, q, at, was.err) && at.k < |all| && all[at.k] == Point(was.x, was.y) != q
    requires c == Moved(was, Abs(q.x - p.x), 0 - Abs(q.y - p.y), Toward(p.x, q.x), Toward(p.y, q.y))
    ensures next.k == at.k + 1 < |all| && Reached(p, q, next, c.err) && all[next.k] == Point(c.x, c.y)
  {
    next := PenMoves(p, q, Abs(q.x - p.x), Abs(q.y - p.y), Toward(p.x, q.x), Toward(p.y, q.y), was, at, all);
    NextOnLine(p, q, at, was.err, next, c.err, all);
  }

  lemma NextOnLine(p: Point, q: Point, at: Walk, err: int, next: Walk, err2: int, all: seq<Point>)
    requires all == LinePoints(p, q) && next.k == at.k + 1 < |all| && Reached(p, q, at, err) && Reached(p, q, next, err2)
    requires at.i <= next.i <= at.i + 1 && at.j <= next.j <= at.j + 1
    ensures all[next.k].x == all[at.k].x + (if next.i == at.i then 0 else Toward(p.x, q.x))
    ensures all[next.k].y == all[at.k].y + (if next.j == at.j then 0 else Toward(p.y, q.y))
  {
    OnLine(p, q, at, err, all);
    OnLine(p, q, next, err2, all);
  }

  lemma HitNext(all: seq<Point>, k: nat, x: int, y: int)
    requires k < |all| && all[k] == Point(x, y)
    ensures forall c: nat, r: nat :: Hit(all[..k + 1], c, r) <==> Hit(all[..k], c, r) || (Cast(x) == c && Cast(y) == r)
  {
    forall c: nat, r: nat
      ensures Hit(all[..k + 1], c, r) <==> Hit(all[..k], c, r) || (Cast(x) == c && Cast(y) == r)
    {
      assert forall m | 0 <= m < k :: all[..k + 1][m] == all[..k][m];
      assert all[..k + 1][k] == all[k];
    }
  }
}
