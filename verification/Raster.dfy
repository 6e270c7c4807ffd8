/**
 Line and triangle drawing on values: the points of a line and how near the ideal line they are, the pixels of a
 triangle and its convex hull, and what wrapping arithmetic makes of both.
 */
module Raster {
  import opened Bytes

  const I64 := 0x8000_0000_0000_0000

  datatype Point = Point(x: int, y: int)

  function Abs(v: int): nat {
    if v < 0 then -v else v
  }

  predicate FitsI64(v: int) {
    -I64 <= v < I64
  }

  /** Two's complement: the signed 64-bit number that wrapping arithmetic leaves. */
  function Wrap64(v: int): (r: int)
    ensures FitsI64(r) && (FitsI64(v) ==> r == v)
  {
    (v + I64) % (2 * I64) - I64
  }

  // ------------------------------------------------------------------ the ideal line

  /** The minor coordinate after k steps on the major axis: k * minor / major, halves rounded up. */
  function Rounded(k: nat, minor: nat, major: nat): nat
    requires major > 0
  {
    (2 * k * minor + major) / (2 * major)
  }

  /** The k-th point of a line with extents a and b, as steps made on each axis. */
  function StepsAt(k: nat, a: nat, b: nat): (nat, nat)
    requires a > 0 || b > 0
  {
    if a >= b then (k, Rounded(k, b, a)) else (Rounded(k, a, b), k)
  }

  function Toward(from: int, to: int): int {
    if from < to then 1 else -1
  }

  /** The k-th point of the line from p to q. */
  function LineAt(p: Point, q: Point, k: nat): Point {
    var a, b := Abs(q.x - p.x), Abs(q.y - p.y);
    if a == 0 && b == 0 then p
    else
      var (i, j) := StepsAt(k, a, b);
      Point(p.x + Toward(p.x, q.x) * i, p.y + Toward(p.y, q.y) * j)
  }

  /** The points of the line: one for each step on the longer axis, both ends included. */
  function LinePoints(p: Point, q: Point): (ps: seq<Point>) {
    var a, b := Abs(q.x - p.x), Abs(q.y - p.y);
    seq((if a >= b then a else b) + 1, k requires k >= 0 => LineAt(p, q, k))
  }

  /** i steps against j on axes of extents a and b stay within half a pixel of the ideal line on the minor axis. */
  predicate Band(i: nat, j: nat, a: nat, b: nat) {
    if a >= b then 0 <= 2 * (i * b - j * a) + a < 2 * a else 0 < 2 * (i * b - j * a) + b <= 2 * b
  }

  lemma RoundedIff(k: nat, j: nat, minor: nat, major: nat)
    requires major > 0
    ensures 0 <= 2 * (k * minor - j * major) + major < 2 * major <==> j == Rounded(k, minor, major)
  {
    var n := 2 * k * minor + major;
    var d := 2 * major;
    var q := n / d;
    assert n == d * q + n % d;
    assert 2 * (k * minor - j * major) + major == n - d * j by {
      assert 2 * k * minor == 2 * (k * minor) && d * j == 2 * (j * major);
    }
    if 0 <= n - d * j < d {
      DivUnique(n, d, j);
    }
  }

  lemma DivUnique(n: nat, d: nat, j: nat)
    requires d > 0 && 0 <= n - d * j < d
    ensures n / d == j
  {
    var q := n / d;
    assert n == d * q + n % d;
    assert d * (q - j) < d && d * (j - q) < d by {
      assert d * (q - j) == d * q - d * j && d * (j - q) == d * j - d * q;
    }
    assert q - j >= 1 ==> d * (q - j) >= d;
    assert j - q >= 1 ==> d * (j - q) >= d;
  }

  /** The band holds exactly one pair of steps for each step on the major axis. */
  lemma BandIff(i: nat, j: nat, a: nat, b: nat)
    requires a > 0 || b > 0
    ensures Band(i, j, a, b) <==> (i, j) == StepsAt(if a >= b then i else j, a, b)
  {
    if a >= b {
      RoundedIff(i, j, b, a);
    } else {
      RoundedIff(j, i, a, b);
      assert 2 * (j * a - i * b) == -(2 * (i * b - j * a));
    }
  }

  /** Half a pixel: the distance on the minor axis, times twice the major extent. */
  lemma HalfPixel(k: nat, minor: nat, major: nat)
    requires major > 0
    ensures 2 * Abs(k * minor - Rounded(k, minor, major) * major) <= major
  {
    RoundedIff(k, Rounded(k, minor, major), minor, major);
  }

  /** Every point of the line lies within half a pixel of the ideal line on its minor axis: the point of round k is k
      steps along the major axis, and the distance, times twice the major extent, is at most that extent. */
  lemma LineHalfPixel(p: Point, q: Point, k: nat, r: Point)
    requires k < |LinePoints(p, q)| && r == LinePoints(p, q)[k]
    ensures var a, b := Abs(q.x - p.x), Abs(q.y - p.y);
            var i, j := Abs(r.x - p.x), Abs(r.y - p.y);
            if a >= b then i == k && 2 * Abs(k * b - j * a) <= a else j == k && 2 * Abs(k * a - i * b) <= b
  {
    var a, b := Abs(q.x - p.x), Abs(q.y - p.y);
    if a >= b {
      if a > 0 {
        HalfPixel(k, b, a);
      }
    } else {
      HalfPixel(k, a, b);
    }
  }

  lemma EndsTogether(minor: nat, major: nat)
    requires major > 0
    ensures Rounded(major, minor, major) == minor
  {
    RoundedIff(major, minor, minor, major);
    assert major * minor - minor * major == 0;
  }

  lemma {:induction false} RoundedMonotone(k: nat, m: nat, minor: nat, major: nat)
    requires major > 0 && k <= m
    ensures Rounded(k, minor, major) <= Rounded(m, minor, major)
  {
    var x, y, d := 2 * k * minor + major, 2 * m * minor + major, 2 * major;
    assert x <= y by {
      assert k * minor <= m * minor;
      assert 2 * k * minor == 2 * (k * minor) && 2 * m * minor == 2 * (m * minor);
    }
    var e := x / d - y / d;
    assert d * e < d by {
      assert x == d * (x / d) + x % d && y == d * (y / d) + y % d;
      assert d * e == d * (x / d) - d * (y / d);
    }
    Below(d, e);
  }

  lemma Below(d: nat, e: int)
    requires d > 0 && d * e < d
    ensures e < 1
  {
  }

  lemma MajorMinor(k: nat, minor: nat, major: nat)
    requires major > 0 && k <= major && minor <= major
    ensures Rounded(0, minor, major) == 0 && Rounded(major, minor, major) == minor && Rounded(k, minor, major) <= minor
  {
    DivUnique(2 * 0 * minor + major, 2 * major, 0);
    EndsTogether(minor, major);
    RoundedMonotone(k, major, minor, major);
  }

  /** The line begins at p, ends at q, and has one point more than the longer of its extents. */
  lemma LineEnds(p: Point, q: Point)
    ensures |LinePoints(p, q)| == 1 + if Abs(q.x - p.x) >= Abs(q.y - p.y) then Abs(q.x - p.x) else Abs(q.y - p.y)
    ensures LinePoints(p, q)[0] == p && LinePoints(p, q)[|LinePoints(p, q)| - 1] == q
  {
    var a, b := Abs(q.x - p.x), Abs(q.y - p.y);
    if a >= b {
      if a > 0 {
        MajorMinor(a, b, a);
      }
    } else {
      MajorMinor(b, a, b);
    }
  }

  /** No point lies outside the box between the ends. */
  lemma LineInBox(p: Point, q: Point, k: nat, r: Point)
    requires k < |LinePoints(p, q)| && r == LinePoints(p, q)[k]
    ensures p.x <= r.x <= q.x || q.x <= r.x <= p.x
    ensures p.y <= r.y <= q.y || q.y <= r.y <= p.y
  {
    var a, b := Abs(q.x - p.x), Abs(q.y - p.y);
    if a >= b {
      if a > 0 {
        MajorMinor(k, b, a);
      }
    } else {
      MajorMinor(k, a, b);
    }
  }

  // ------------------------------------------------------------------ the loop's step

  /** From a point of the line that is not its end, the loop's two tests lead to the next point. */
  lemma Advance(i: nat, j: nat, a: nat, b: nat, err: int) returns (i2: nat, j2: nat)
    requires (a > 0 || b > 0) && i <= a && j <= b && Band(i, j, a, b) && !(i == a && j == b)
    requires err == a - b - (i * b - j * a)
    ensures i2 == i + (if 2 * err + b >= 0 then 1 else 0) && j2 == j + if 2 * err <= a then 1 else 0
    ensures (if a >= b then i2 == i + 1 else j2 == j + 1) && i2 <= a && j2 <= b && Band(i2, j2, a, b)
    ensures err - (if 2 * err + b >= 0 then b else 0) + (if 2 * err <= a then a else 0) == a - b - (i2 * b - j2 * a)
  {
    i2 := i + if 2 * err + b >= 0 then 1 else 0;
    j2 := j + if 2 * err <= a then 1 else 0;
    assert (i + 1) * b == i * b + b && (j + 1) * a == j * a + a;
    BandIff(i, j, a, b);
    BandIff(i2, j2, a, b);
    if a >= b {
      EndsTogether(b, a);
      assert i < a;
      RoundedMonotone(i2, a, b, a);
    } else {
      EndsTogether(a, b);
      assert j < b;
      RoundedMonotone(j2, b, a, b);
    }
  }

  /** The range of twice the error term. */
  lemma ErrorRange(i: nat, j: nat, a: nat, b: nat, err: int)
    requires (a > 0 || b > 0) && Band(i, j, a, b) && err == a - b - (i * b - j * a)
    ensures if a >= b then a - 2 * b < 2 * err <= 3 * a - 2 * b else 2 * a - 3 * b <= 2 * err < 2 * a - b
    ensures b == 0 ==> err == a
    ensures a == 0 ==> err == 0 - b
  {
    if b == 0 {
      assert i * b == 0;
      NoSteps(j, a);
    }
    if a == 0 {
      assert j * a == 0;
      NoSteps(i, b);
    }
  }

  lemma NoSteps(j: nat, a: nat)
    requires a > 0 && 0 - a < 2 * (j * a) <= a
    ensures j == 0
  {
    assert j >= 1 ==> j * a >= a;
  }

  /** Twice the error term stays inside 64 bits on lines of these extents. */
  predicate Roomy(a: nat, b: nat) {
    if a >= b then if b == 0 then 2 * a < I64 else 3 * a - 2 * b < I64
    else if a == 0 then 2 * b <= I64 else 3 * b - 2 * a <= I64
  }

  datatype Pen = Pen(x: int, y: int, err: int)

  /** One round of the loop in wrapping arithmetic. */
  function Moved(c: Pen, dx: int, dy: int, sx: int, sy: int): Pen {
    var e2 := Wrap64(2 * c.err);
    var d := if e2 >= dy then Pen(c.x + sx, c.y, Wrap64(c.err + dy)) else c;
    if e2 <= dx then Pen(d.x, d.y + sy, Wrap64(d.err + dx)) else d
  }

  /** A horizontal line of 2^62 steps leaves its row in the first round: twice the error term wraps. */
  lemma LongLineStrays(p: Point, q: Point, n: nat)
    requires n == 0x4000_0000_0000_0000 && p == Point(0, 0) && q == Point(n, 0)
    ensures |LinePoints(p, q)| == n + 1 && LinePoints(p, q)[1] == Point(1, 0) && !Roomy(n, 0)
    ensures var c := Moved(Pen(0, 0, n), n, 0, 1, -1); (c.x, c.y) == (0, -1)
  {
    HorizontalSecond(p, q, n);
    FirstRoundWraps(n);
  }

  lemma HorizontalSecond(p: Point, q: Point, n: nat)
    requires n > 0 && p == Point(0, 0) && q == Point(n, 0)
    ensures |LinePoints(p, q)| == n + 1 && LinePoints(p, q)[1] == Point(1, 0)
  {
    MajorMinor(1, 0, n);
  }

  lemma FirstRoundWraps(n: nat)
    requires 2 * n == I64
    ensures var c := Moved(Pen(0, 0, n), n, 0, 1, -1); (c.x, c.y) == (0, -1)
  {
    Overflows(2 * n);
  }

  /** As long as the exact error terms fit, a round moves as they say, although the term may wrap in between. */
  lemma ErrorMoves(c: Pen, a: nat, b: nat, sx: int, sy: int, next: int)
    requires FitsI64(2 * c.err) && FitsI64(next)
    requires next == c.err - (if 2 * c.err + b >= 0 then b else 0) + if 2 * c.err <= a then a else 0
    ensures Moved(c, a, 0 - b, sx, sy)
         == Pen(c.x + (if 2 * c.err + b >= 0 then sx else 0), c.y + (if 2 * c.err <= a then sy else 0), next)
  {
    WrapSum(c.err - b, a);
  }

  lemma ErrorFits(i: nat, j: nat, a: nat, b: nat, err: int)
    requires Roomy(a, b) && (a > 0 || b > 0) && Band(i, j, a, b) && err == a - b - (i * b - j * a)
    ensures FitsI64(2 * err) && FitsI64(err)
  {
    ErrorRange(i, j, a, b, err);
  }

  // ------------------------------------------------------------------ triangles

  /** The edge function: twice the signed area of a, b and p. */
  function Edge(a: Point, b: Point, p: Point): int {
    (b.x - a.x) * (p.y - a.y) - (b.y - a.y) * (p.x - a.x)
  }

  /** The fill test; a degenerate triangle covers nothing. */
  predicate Inside(u: Point, v: Point, w: Point, p: Point) {
    var area := Edge(u, v, w);
    if area > 0 then Edge(u, v, p) >= 0 && Edge(v, w, p) >= 0 && Edge(w, u, p) >= 0
    else area < 0 && Edge(u, v, p) <= 0 && Edge(v, w, p) <= 0 && Edge(w, u, p) <= 0
  }

  /** p is the mean of the corners with these weights. */
  predicate Weighted(u: Point, v: Point, w: Point, p: Point, a: nat, b: nat, c: nat) {
    && a + b + c > 0
    && (a + b + c) * p.x == a * u.x + b * v.x + c * w.x
    && (a + b + c) * p.y == a * u.y + b * v.y + c * w.y
  }

  ghost predicate InHull(u: Point, v: Point, w: Point, p: Point) {
    exists a: nat, b: nat, c: nat :: Weighted(u, v, w, p, a, b, c)
  }

  lemma AreaIsEdge(u: Point, v: Point, w: Point)
    ensures (v.x - u.x) * (w.y - u.y) - (w.x - u.x) * (v.y - u.y) == Edge(u, v, w)
  {
    assert (w.x - u.x) * (v.y - u.y) == (v.y - u.y) * (w.x - u.x);
  }

  /** With all vectors taken from the first corner: the two other edge functions weigh the two other corners. */
  lemma Cramer(ux: int, uy: int, vx: int, vy: int, dx: int, dy: int)
    ensures (ux * vy - uy * vx) * dx == (vy * dx - vx * dy) * ux + (ux * dy - uy * dx) * vx
    ensures (ux * vy - uy * vx) * dy == (vy * dx - vx * dy) * uy + (ux * dy - uy * dx) * vy
  {
    Triple(ux, vy, dx);
    Triple(uy, vx, dx);
    Triple(vx, dy, ux);
    Triple(vy, dx, ux);
    Triple(uy, vx, dy);
    Triple(ux, vy, dy);
    Triple(vy, dx, uy);
    Triple(vx, dy, uy);
    Triple(ux, dy, vx);
    Triple(uy, dx, vx);
    Triple(ux, dy, vy);
    Triple(uy, dx, vy);
    assert (ux * vy - uy * vx) * dx == ux * vy * dx - uy * vx * dx;
    assert (vy * dx - vx * dy) * ux == vy * dx * ux - vx * dy * ux;
    assert (ux * dy - uy * dx) * vx == ux * dy * vx - uy * dx * vx;
    assert (ux * vy - uy * vx) * dy == ux * vy * dy - uy * vx * dy;
    assert (vy * dx - vx * dy) * uy == vy * dx * uy - vx * dy * uy;
    assert (ux * dy - uy * dx) * vy == ux * dy * vy - uy * dx * vy;
  }

  lemma Triple(x: int, y: int, z: int)
    ensures x * y * z == y * z * x == x * z * y
  {
  }

  /** The edge functions from the first corner's point of view, and their sum. */
  lemma EdgesFromFirst(u: Point, v: Point, w: Point, p: Point)
    ensures var ax, ay, cx, cy, dx, dy := v.x - u.x, v.y - u.y, w.x - u.x, w.y - u.y, p.x - u.x, p.y - u.y;
            && Edge(u, v, w) == ax * cy - ay * cx && Edge(u, v, p) == ax * dy - ay * dx && Edge(w, u, p) == cy * dx - cx * dy
    ensures Edge(u, v, p) + Edge(v, w, p) + Edge(w, u, p) == Edge(u, v, w)
  {
    var ax, ay, cx, cy, dx, dy := v.x - u.x, v.y - u.y, w.x - u.x, w.y - u.y, p.x - u.x, p.y - u.y;
    assert Edge(w, u, p) == (-cx) * (dy - cy) - (-cy) * (dx - cx);
    BackEdge(cx, cy, dx, dy);
    assert Edge(v, w, p) == (cx - ax) * (dy - ay) - (cy - ay) * (dx - ax);
    FarEdge(ax, ay, cx, cy, dx, dy);
  }

  lemma BackEdge(cx: int, cy: int, dx: int, dy: int)
    ensures (-cx) * (dy - cy) - (-cy) * (dx - cx) == cy * dx - cx * dy
  {
    assert (-cx) * (dy - cy) == -(cx * dy) + cx * cy;
    assert (-cy) * (dx - cx) == -(cy * dx) + cy * cx;
  }

  lemma FarEdge(ax: int, ay: int, cx: int, cy: int, dx: int, dy: int)
    ensures (cx - ax) * (dy - ay) - (cy - ay) * (dx - ax)
         == (ax * cy - ay * cx) - (ax * dy - ay * dx) - (cy * dx - cx * dy)
  {
    assert (cx - ax) * (dy - ay) == cx * dy - cx * ay - ax * dy + ax * ay;
    assert (cy - ay) * (dx - ax) == cy * dx - cy * ax - ay * dx + ay * ax;
  }

  /** The pixels of the fill are those of the convex hull, in one direction ... */
  lemma InsideIsWeighted(u: Point, v: Point, w: Point, p: Point) returns (a: nat, b: nat, c: nat)
    requires Inside(u, v, w, p)
    ensures Weighted(u, v, w, p, a, b, c)
  {
    var area, wa, wb, wc := Edge(u, v, w), Edge(v, w, p), Edge(w, u, p), Edge(u, v, p);
    Barycentric(u, v, w, p, area, wa, wb, wc);
    if area > 0 {
      a, b, c := wa, wb, wc;
    } else {
      Negate(area, wa, wb, wc, u.x, v.x, w.x, p.x);
      Negate(area, wa, wb, wc, u.y, v.y, w.y, p.y);
      a, b, c := -wa, -wb, -wc;
    }
    Weigh(u, v, w, p, a, b, c, if area > 0 then area else -area);
  }

  lemma Weigh(u: Point, v: Point, w: Point, p: Point, a: nat, b: nat, c: nat, s: nat)
    requires s == a + b + c > 0 && s * p.x == a * u.x + b * v.x + c * w.x && s * p.y == a * u.y + b * v.y + c * w.y
    ensures Weighted(u, v, w, p, a, b, c)
  {
  }

  lemma Barycentric(u: Point, v: Point, w: Point, p: Point, area: int, wa: int, wb: int, wc: int)
    requires area == Edge(u, v, w) && wa == Edge(v, w, p) && wb == Edge(w, u, p) && wc == Edge(u, v, p)
    ensures wa + wb + wc == area
    ensures area * p.x == wa * u.x + wb * v.x + wc * w.x && area * p.y == wa * u.y + wb * v.y + wc * w.y
  {
    EdgesFromFirst(u, v, w, p);
    Cramer(v.x - u.x, v.y - u.y, w.x - u.x, w.y - u.y, p.x - u.x, p.y - u.y);
    Spread(area, wa, wb, wc, u.x, v.x, w.x, p.x);
    Spread(area, wa, wb, wc, u.y, v.y, w.y, p.y);
  }

  lemma Spread(area: int, wa: int, wb: int, wc: int, u: int, v: int, w: int, p: int)
    requires wa + wb + wc == area && area * (p - u) == wb * (v - u) + wc * (w - u)
    ensures area * p == wa * u + wb * v + wc * w
  {
    assert area * (p - u) == area * p - area * u;
    assert area * u == wa * u + wb * u + wc * u;
    assert wb * (v - u) == wb * v - wb * u && wc * (w - u) == wc * w - wc * u;
  }

  lemma Negate(area: int, wa: int, wb: int, wc: int, u: int, v: int, w: int, p: int)
    requires area * p == wa * u + wb * v + wc * w
    ensures (-area) * p == (-wa) * u + (-wb) * v + (-wc) * w
  {
    assert (-area) * p == -(area * p) && (-wa) * u == -(wa * u) && (-wb) * v == -(wb * v) && (-wc) * w == -(wc * w);
  }

  /** ... and in the other. */
  lemma WeightedIsInside(u: Point, v: Point, w: Point, p: Point, a: nat, b: nat, c: nat)
    requires Weighted(u, v, w, p, a, b, c) && Edge(u, v, w) != 0
    ensures Inside(u, v, w, p)
  {
    var s := a + b + c;
    var ax, ay, cx, cy, dx, dy := v.x - u.x, v.y - u.y, w.x - u.x, w.y - u.y, p.x - u.x, p.y - u.y;
    EdgesFromFirst(u, v, w, p);
    Gather(a, b, c, s, u.x, v.x, w.x, p.x);
    Gather(a, b, c, s, u.y, v.y, w.y, p.y);
    var area, wb, wc := Edge(u, v, w), Edge(w, u, p), Edge(u, v, p);
    Scaled(ax, ay, cx, cy, dx, dy, s, b, c);
    assert s * wc == c * area && s * wb == b * area;
    var wa := Edge(v, w, p);
    assert s * wa == a * area by {
      assert wa == area - wb - wc;
      assert s * wa == s * area - s * wb - s * wc;
      assert s * area == a * area + b * area + c * area;
    }
    SameSign(s, wa, a, area);
    SameSign(s, wb, b, area);
    SameSign(s, wc, c, area);
  }

  lemma Gather(a: nat, b: nat, c: nat, s: nat, u: int, v: int, w: int, p: int)
    requires s == a + b + c && s * p == a * u + b * v + c * w
    ensures s * (p - u) == b * (v - u) + c * (w - u)
  {
    assert s * (p - u) == s * p - s * u;
    assert s * u == a * u + b * u + c * u;
    assert b * (v - u) == b * v - b * u && c * (w - u) == c * w - c * u;
  }

  lemma Scaled(ax: int, ay: int, cx: int, cy: int, dx: int, dy: int, s: int, b: int, c: int)
    requires s * dx == b * ax + c * cx && s * dy == b * ay + c * cy
    ensures s * (ax * dy - ay * dx) == c * (ax * cy - ay * cx)
    ensures s * (cy * dx - cx * dy) == b * (ax * cy - ay * cx)
  {
    Pull(s, ax, dy, b, ay, c, cy);
    Pull(s, ay, dx, b, ax, c, cx);
    Pull(s, cy, dx, b, ax, c, cx);
    Pull(s, cx, dy, b, ay, c, cy);
    assert s * (ax * dy - ay * dx) == s * (ax * dy) - s * (ay * dx);
    assert s * (cy * dx - cx * dy) == s * (cy * dx) - s * (cx * dy);
    assert ax * ay == ay * ax && cx * cy == cy * cx && ay * cx == cx * ay && ax * cy == cy * ax;
    assert c * (ax * cy - ay * cx) == c * (ax * cy) - c * (ay * cx);
    assert b * (ax * cy - ay * cx) == b * (ax * cy) - b * (ay * cx);
  }

  lemma Pull(s: int, k: int, d: int, b: int, e: int, c: int, f: int)
    requires s * d == b * e + c * f
    ensures s * (k * d) == b * (k * e) + c * (k * f)
  {
    assert s * (k * d) == k * (s * d);
    assert k * (b * e + c * f) == k * (b * e) + k * (c * f);
    assert k * (b * e) == b * (k * e) && k * (c * f) == c * (k * f);
  }

  lemma SameSign(s: nat, w: int, a: nat, area: int)
    requires s > 0 && s * w == a * area
    ensures area > 0 ==> w >= 0
    ensures area < 0 ==> w <= 0
  {
    if area > 0 {
      assert a * area >= 0;
    } else if area < 0 {
      assert a * area <= 0;
    }
    assert w < 0 ==> s * w < 0;
    assert w > 0 ==> s * w > 0;
  }

  /** A triangle that is not degenerate covers exactly the pixels of the convex hull of its corners. */
  lemma FillIsHull(u: Point, v: Point, w: Point, p: Point)
    requires Edge(u, v, w) != 0
    ensures Inside(u, v, w, p) <==> InHull(u, v, w, p)
  {
    if Inside(u, v, w, p) {
      var a, b, c := InsideIsWeighted(u, v, w, p);
    }
    if a: nat, b: nat, c: nat :| Weighted(u, v, w, p, a, b, c) {
      WeightedIsInside(u, v, w, p, a, b, c);
    }
  }

  /** So the order of the corners does not matter. */
  lemma OrderIrrelevant(u: Point, v: Point, w: Point, p: Point)
    ensures Inside(u, v, w, p) == Inside(v, w, u, p) == Inside(w, u, v, p)
    ensures Inside(u, v, w, p) == Inside(v, u, w, p) == Inside(u, w, v, p) == Inside(w, v, u, p)
  {
    EdgesFromFirst(u, v, w, u);
    Turned(u, v, w);
    Turned(v, w, u);
    Turned(v, u, w);
    if Inside(u, v, w, p) {
      var a, b, c := InsideIsWeighted(u, v, w, p);
      AllOrders(u, v, w, p, a, b, c);
    } else if Edge(u, v, w) != 0 {
      NoOrder(u, v, w, p);
    }
  }

  lemma Turned(u: Point, v: Point, w: Point)
    ensures Edge(v, w, u) == Edge(u, v, w) && Edge(v, u, w) == -Edge(u, v, w)
  {
    EdgesFromFirst(u, v, w, u);
    EdgesFromFirst(v, u, w, v);
    assert Edge(u, v, w) == (v.x - u.x) * (w.y - u.y) - (v.y - u.y) * (w.x - u.x);
    assert (v.x - u.x) * (w.y - u.y) == v.x * w.y - v.x * u.y - u.x * w.y + u.x * u.y;
    assert (v.y - u.y) * (w.x - u.x) == v.y * w.x - v.y * u.x - u.y * w.x + u.y * u.x;
    assert Edge(v, u, w) == (u.x - v.x) * (w.y - v.y) - (u.y - v.y) * (w.x - v.x);
    assert (u.x - v.x) * (w.y - v.y) == u.x * w.y - u.x * v.y - v.x * w.y + v.x * v.y;
    assert (u.y - v.y) * (w.x - v.x) == u.y * w.x - u.y * v.x - v.y * w.x + v.y * v.x;
  }

  lemma AllOrders(u: Point, v: Point, w: Point, p: Point, a: nat, b: nat, c: nat)
    requires Weighted(u, v, w, p, a, b, c) && Edge(u, v, w) != 0
    ensures Inside(v, w, u, p) && Inside(w, u, v, p) && Inside(v, u, w, p) && Inside(u, w, v, p) && Inside(w, v, u, p)
  {
    Turned(u, v, w);
    Turned(v, w, u);
    Turned(w, u, v);
    Turned(v, u, w);
    Turned(u, w, v);
    WeightedIsInside(v, w, u, p, b, c, a);
    WeightedIsInside(w, u, v, p, c, a, b);
    WeightedIsInside(v, u, w, p, b, a, c);
    WeightedIsInside(u, w, v, p, a, c, b);
    WeightedIsInside(w, v, u, p, c, b, a);
  }

  lemma NoOrder(u: Point, v: Point, w: Point, p: Point)
    requires !Inside(u, v, w, p) && Edge(u, v, w) != 0
    ensures !Inside(v, w, u, p) && !Inside(w, u, v, p) && !Inside(v, u, w, p) && !Inside(u, w, v, p) && !Inside(w, v, u, p)
  {
    FromOrder(u, v, w, p, v, w, u);
    FromOrder(u, v, w, p, w, u, v);
    FromOrder(u, v, w, p, v, u, w);
    FromOrder(u, v, w, p, u, w, v);
    FromOrder(u, v, w, p, w, v, u);
  }

  lemma FromOrder(u: Point, v: Point, w: Point, p: Point, x: Point, y: Point, z: Point)
    requires Edge(u, v, w) != 0
    requires (x, y, z) in {(v, w, u), (w, u, v), (v, u, w), (u, w, v), (w, v, u)}
    ensures Inside(x, y, z, p) ==> Inside(u, v, w, p)
  {
    if Inside(x, y, z, p) {
      var a, b, c := InsideIsWeighted(x, y, z, p);
      if (x, y, z) == (v, w, u) {
        WeightedIsInside(u, v, w, p, c, a, b);
      } else if (x, y, z) == (w, u, v) {
        WeightedIsInside(u, v, w, p, b, c, a);
      } else if (x, y, z) == (v, u, w) {
        WeightedIsInside(u, v, w, p, b, a, c);
      } else if (x, y, z) == (u, w, v) {
        WeightedIsInside(u, v, w, p, a, c, b);
      } else {
        WeightedIsInside(u, v, w, p, c, b, a);
      }
    }
  }

  function Min3(a: int, b: int, c: int): int {
    if a <= b && a <= c then a else if b <= c then b else c
  }

  function Max3(a: int, b: int, c: int): int {
    if a >= b && a >= c then a else if b >= c then b else c
  }

  predicate InBox(u: Point, v: Point, w: Point, p: Point) {
    Min3(u.x, v.x, w.x) <= p.x <= Max3(u.x, v.x, w.x) && Min3(u.y, v.y, w.y) <= p.y <= Max3(u.y, v.y, w.y)
  }

  /** What the loops paint: the test in wrapping arithmetic, on the pixels of the box. */
  predicate Painted(u: Point, v: Point, w: Point, p: Point) {
    var area := Wrap64(Edge(u, v, w));
    && area != 0 && InBox(u, v, w, p)
    && if area > 0 then Wrap64(Edge(u, v, p)) >= 0 && Wrap64(Edge(v, w, p)) >= 0 && Wrap64(Edge(w, u, p)) >= 0
       else Wrap64(Edge(u, v, p)) <= 0 && Wrap64(Edge(v, w, p)) <= 0 && Wrap64(Edge(w, u, p)) <= 0
  }

  /** The edge function of a and b, at each corner of the box, does not leave 64 bits on the side on which the pixels
      outside the triangle lie. */
  predicate EdgeSafe(u: Point, v: Point, w: Point, a: Point, b: Point) {
    var x0, x1, y0, y1 := Min3(u.x, v.x, w.x), Max3(u.x, v.x, w.x), Min3(u.y, v.y, w.y), Max3(u.y, v.y, w.y);
    if Edge(u, v, w) > 0 then
      && Edge(a, b, Point(x0, y0)) >= -I64 && Edge(a, b, Point(x0, y1)) >= -I64
      && Edge(a, b, Point(x1, y0)) >= -I64 && Edge(a, b, Point(x1, y1)) >= -I64
    else
      && Edge(a, b, Point(x0, y0)) < I64 && Edge(a, b, Point(x0, y1)) < I64
      && Edge(a, b, Point(x1, y0)) < I64 && Edge(a, b, Point(x1, y1)) < I64
  }

  predicate FillSafe(u: Point, v: Point, w: Point) {
    FitsI64(Edge(u, v, w)) && EdgeSafe(u, v, w, u, v) && EdgeSafe(u, v, w, v, w) && EdgeSafe(u, v, w, w, u)
  }

  /** When twice the area fits 64 bits and so do, on their outer side, the edge functions at the box's corners, the
      loops paint exactly the triangle. */
  lemma PaintedIsInside(u: Point, v: Point, w: Point, p: Point)
    requires FillSafe(u, v, w)
    ensures Painted(u, v, w, p) <==> Inside(u, v, w, p)
  {
    EdgesFromFirst(u, v, w, p);
    if Inside(u, v, w, p) {
      InsideBox(u, v, w, p);
    }
    if InBox(u, v, w, p) {
      OuterSide(u, v, w, u, v, p);
      OuterSide(u, v, w, v, w, p);
      OuterSide(u, v, w, w, u, p);
    }
  }

  /** What holds at the corners of the box holds in it. */
  lemma OuterSide(u: Point, v: Point, w: Point, a: Point, b: Point, p: Point)
    requires InBox(u, v, w, p) && EdgeSafe(u, v, w, a, b)
    ensures if Edge(u, v, w) > 0 then Edge(a, b, p) >= -I64 else Edge(a, b, p) < I64
  {
    var x0, x1, y0, y1 := Min3(u.x, v.x, w.x), Max3(u.x, v.x, w.x), Min3(u.y, v.y, w.y), Max3(u.y, v.y, w.y);
    if Edge(u, v, w) > 0 {
      LeastCorner(a, b, p, x0, x1, y0, y1, -I64);
    } else {
      forall r
        ensures Edge(b, a, r) == -Edge(a, b, r)
      {
        Reversed(a, b, r);
      }
      LeastCorner(b, a, p, x0, x1, y0, y1, 1 - I64);
    }
  }

  lemma Reversed(a: Point, b: Point, p: Point)
    ensures Edge(b, a, p) == -Edge(a, b, p)
  {
    var dx, dy := b.x - a.x, b.y - a.y;
    assert Edge(b, a, p) == (-dx) * (p.y - a.y - dy) - (-dy) * (p.x - a.x - dx);
    assert (-dx) * (p.y - a.y - dy) == -(dx * (p.y - a.y)) + dx * dy;
    assert (-dy) * (p.x - a.x - dx) == -(dy * (p.x - a.x)) + dy * dx;
  }

  /** An edge function is nowhere in a box below its least value at the corners. */
  lemma LeastCorner(a: Point, b: Point, p: Point, x0: int, x1: int, y0: int, y1: int, lo: int)
    requires x0 <= p.x <= x1 && y0 <= p.y <= y1
    requires Edge(a, b, Point(x0, y0)) >= lo && Edge(a, b, Point(x0, y1)) >= lo
    requires Edge(a, b, Point(x1, y0)) >= lo && Edge(a, b, Point(x1, y1)) >= lo
    ensures Edge(a, b, p) >= lo
  {
    var x := if b.y - a.y > 0 then x1 else x0;
    var y := if b.x - a.x >= 0 then y0 else y1;
    Downhill(b.x - a.x, y - a.y, p.y - a.y);
    Downhill(-(b.y - a.y), x - a.x, p.x - a.x);
    assert Edge(a, b, p) >= Edge(a, b, Point(x, y)) by {
      assert -(b.y - a.y) * (p.x - a.x) == -((b.y - a.y) * (p.x - a.x));
      assert -(b.y - a.y) * (x - a.x) == -((b.y - a.y) * (x - a.x));
    }
  }

  lemma Downhill(k: int, from: int, to: int)
    requires if k >= 0 then from <= to else from >= to
    ensures k * from <= k * to
  {
    if k < 0 {
      assert k * (to - from) >= 0;
    } else {
      assert k * (to - from) >= 0;
    }
  }

  /** In particular when the box of the corners has fewer than 2^63 pixels. */
  lemma SmallBoxSafe(u: Point, v: Point, w: Point)
    requires (Max3(u.x, v.x, w.x) - Min3(u.x, v.x, w.x)) * (Max3(u.y, v.y, w.y) - Min3(u.y, v.y, w.y)) < I64
    ensures FillSafe(u, v, w)
  {
    var x0, x1, y0, y1 := Min3(u.x, v.x, w.x), Max3(u.x, v.x, w.x), Min3(u.y, v.y, w.y), Max3(u.y, v.y, w.y);
    EdgeInBox(u, v, w, u, v, w);
    SmallBoxEdge(u, v, w, u, v);
    SmallBoxEdge(u, v, w, v, w);
    SmallBoxEdge(u, v, w, w, u);
  }

  lemma SmallBoxEdge(u: Point, v: Point, w: Point, a: Point, b: Point)
    requires (Max3(u.x, v.x, w.x) - Min3(u.x, v.x, w.x)) * (Max3(u.y, v.y, w.y) - Min3(u.y, v.y, w.y)) < I64
    requires InBox(u, v, w, a) && InBox(u, v, w, b)
    ensures EdgeSafe(u, v, w, a, b)
  {
    var x0, x1, y0, y1 := Min3(u.x, v.x, w.x), Max3(u.x, v.x, w.x), Min3(u.y, v.y, w.y), Max3(u.y, v.y, w.y);
    EdgeInBox(u, v, w, a, b, Point(x0, y0));
    EdgeInBox(u, v, w, a, b, Point(x0, y1));
    EdgeInBox(u, v, w, a, b, Point(x1, y0));
    EdgeInBox(u, v, w, a, b, Point(x1, y1));
  }

  lemma EdgeInBox(u: Point, v: Point, w: Point, a: Point, b: Point, p: Point)
    requires InBox(u, v, w, a) && InBox(u, v, w, b) && InBox(u, v, w, p)
    requires (Max3(u.x, v.x, w.x) - Min3(u.x, v.x, w.x)) * (Max3(u.y, v.y, w.y) - Min3(u.y, v.y, w.y)) < I64
    ensures FitsI64(Edge(a, b, p))
  {
    var x, y := Min3(u.x, v.x, w.x), Min3(u.y, v.y, w.y);
    var width, height := Max3(u.x, v.x, w.x) - x, Max3(u.y, v.y, w.y) - y;
    EdgeFromCorner(a, b, p, x, y);
    TwiceArea(a.x - x, b.x - x, p.x - x, a.y - y, b.y - y, p.y - y, width, height);
    TwiceArea(b.x - x, a.x - x, p.x - x, b.y - y, a.y - y, p.y - y, width, height);
    Opposite(a.x - x, b.x - x, p.x - x, a.y - y, b.y - y, p.y - y);
  }

  /** Twice the area of a triangle, weighing the x coordinates, as seen from the corner of a box. */
  function Shoelace(xa: int, xb: int, xp: int, ya: int, yb: int, yp: int): int {
    xa * (yb - yp) + xb * (yp - ya) + xp * (ya - yb)
  }

  lemma EdgeFromCorner(a: Point, b: Point, p: Point, x: int, y: int)
    ensures Edge(a, b, p) == Shoelace(a.x - x, b.x - x, p.x - x, a.y - y, b.y - y, p.y - y)
  {
    var i, j, k := a.x - x, b.x - x, p.x - x;
    var r, s, t := a.y - y, b.y - y, p.y - y;
    assert Edge(a, b, p) == (j - i) * (t - r) - (s - r) * (k - i);
    assert (j - i) * (t - r) == j * (t - r) - i * (t - r);
    assert (s - r) * (k - i) == k * (s - r) - i * (s - r);
    assert i * (s - r) - i * (t - r) == i * (s - t);
    assert k * (s - r) == -(k * (r - s));
  }

  lemma Opposite(xa: int, xb: int, xp: int, ya: int, yb: int, yp: int)
    ensures Shoelace(xb, xa, xp, yb, ya, yp) == -Shoelace(xa, xb, xp, ya, yb, yp)
  {
    assert xa * (yp - yb) == -(xa * (yb - yp)) && xb * (ya - yp) == -(xb * (yp - ya)) && xp * (yb - ya) == -(xp * (ya - yb));
  }

  /** A triangle inside a box has at most half its area. */
  lemma TwiceArea(xa: int, xb: int, xp: int, ya: int, yb: int, yp: int, width: int, height: int)
    requires 0 <= xa <= width && 0 <= xb <= width && 0 <= xp <= width
    requires 0 <= ya <= height && 0 <= yb <= height && 0 <= yp <= height
    ensures Shoelace(xa, xb, xp, ya, yb, yp) <= width * height
  {
    Part(xa, yb - yp, width);
    Part(xb, yp - ya, width);
    Part(xp, ya - yb, width);
    var rise := Rise(yb - yp) + Rise(yp - ya) + Rise(ya - yb);
    assert width * rise == width * Rise(yb - yp) + width * Rise(yp - ya) + width * Rise(ya - yb);
    Grows(width, rise, height);
  }

  function Rise(c: int): nat {
    if c > 0 then c else 0
  }

  lemma Part(x: int, c: int, width: int)
    requires 0 <= x <= width
    ensures x * c <= width * Rise(c)
  {
    if c > 0 {
      Grows(c, x, width);
      assert x * c == c * x && width * c == c * width;
    } else {
      Grows(x, c, 0);
    }
  }

  /** Beyond that the area can wrap: a triangle over the whole range of its coordinates, and a pixel of it that the
      loops leave out. */
  lemma HugeTriangle(u: Point, v: Point, w: Point, p: Point, m: int)
    requires m == 0xFFFF_FFFF
    requires u == Point(0, 0) && v == Point(m, 0) && w == Point(0, m) && p == Point(1, 1)
    ensures Inside(u, v, w, p) && InBox(u, v, w, p) && !Painted(u, v, w, p)
  {
    RightTriangle(u, v, w, p, m);
    Square(m);
    LeftOut(u, v, w, p, m * m, m);
  }

  lemma Square(m: int)
    requires m == 0xFFFF_FFFF
    ensures I64 <= m * m < 2 * I64
  {
  }

  lemma RightTriangle(u: Point, v: Point, w: Point, p: Point, m: nat)
    requires u == Point(0, 0) && v == Point(m, 0) && w == Point(0, m) && p == Point(1, 1) && m > 1
    ensures Edge(u, v, w) == m * m && Edge(u, v, p) == m && Edge(v, w, p) == m * m - 2 * m && Edge(w, u, p) == m
    ensures m * m >= 2 * m && InBox(u, v, w, p)
  {
    assert m * (1 - m) == m - m * m;
    assert m * m >= 2 * m;
  }

  /** A pixel inside a triangle whose area wraps to a negative number is left out. */
  lemma LeftOut(u: Point, v: Point, w: Point, p: Point, area: int, e: int)
    requires area == Edge(u, v, w) && I64 <= area < 2 * I64 && e == Edge(u, v, p) && 0 < e < I64
    ensures !Painted(u, v, w, p)
  {
    Overflows(area);
  }

  lemma Overflows(v: int)
    requires I64 <= v < 2 * I64
    ensures Wrap64(v) == v - 2 * I64 < 0
  {
    assert (v + I64) / (2 * I64) == 1;
  }

  lemma WrapSum(x: int, y: int)
    ensures Wrap64(Wrap64(x) + y) == Wrap64(x + y)
  {
    var m := 2 * I64;
    var j := (x + I64) / m;
    assert Wrap64(x) == x - m * j;
    ShiftMod(x + y + I64, -j, m);
    assert Wrap64(x) + y + I64 == x + y + I64 + m * -j;
  }

  /** Products and differences that wrap one by one wrap to the same as the whole. */
  lemma WrapDifference(x: int, y: int)
    ensures Wrap64(Wrap64(x) - Wrap64(y)) == Wrap64(x - y)
  {
    var m := 2 * I64;
    var j, k := (x + I64) / m, (y + I64) / m;
    assert Wrap64(x) == x - m * j && Wrap64(y) == y - m * k;
    ShiftMod(x - y + I64, k - j, m);
    assert Wrap64(x) - Wrap64(y) + I64 == x - y + I64 + m * (k - j);
  }

  lemma ShiftMod(v: int, t: int, m: int)
    requires m == 2 * I64
    ensures (v + m * t) % m == v % m
  {
  }

  /** No covered pixel lies outside the box that the loops visit. */
  lemma InsideBox(u: Point, v: Point, w: Point, p: Point)
    requires Inside(u, v, w, p)
    ensures Min3(u.x, v.x, w.x) <= p.x <= Max3(u.x, v.x, w.x)
    ensures Min3(u.y, v.y, w.y) <= p.y <= Max3(u.y, v.y, w.y)
  {
    var a, b, c := InsideIsWeighted(u, v, w, p);
    MeanBetween(a, b, c, u.x, v.x, w.x, p.x, Min3(u.x, v.x, w.x), Max3(u.x, v.x, w.x));
    MeanBetween(a, b, c, u.y, v.y, w.y, p.y, Min3(u.y, v.y, w.y), Max3(u.y, v.y, w.y));
  }

  lemma MeanBetween(a: nat, b: nat, c: nat, u: int, v: int, w: int, p: int, lo: int, hi: int)
    requires a + b + c > 0 && (a + b + c) * p == a * u + b * v + c * w
    requires lo <= u <= hi && lo <= v <= hi && lo <= w <= hi
    ensures lo <= p <= hi
  {
    AtMost(a, b, c, u, v, w, p, hi);
    Flip(a, b, c, u, v, w, p);
    AtMost(a, b, c, -u, -v, -w, -p, -lo);
  }

  lemma AtMost(a: nat, b: nat, c: nat, u: int, v: int, w: int, p: int, hi: int)
    requires a + b + c > 0 && u <= hi && v <= hi && w <= hi
    requires (a + b + c) * p == a * u + b * v + c * w
    ensures p <= hi
  {
    var s := a + b + c;
    Grows(a, u, hi);
    Grows(b, v, hi);
    Grows(c, w, hi);
    assert s * hi == a * hi + b * hi + c * hi;
    assert s * (hi - p) == s * hi - s * p;
    assert hi - p < 0 ==> s * (hi - p) < 0;
  }

  lemma Grows(a: nat, u: int, hi: int)
    requires u <= hi
    ensures a * u <= a * hi
  {
  }

  lemma Flip(a: nat, b: nat, c: nat, u: int, v: int, w: int, p: int)
    requires (a + b + c) * p == a * u + b * v + c * w
    ensures (a + b + c) * -p == a * -u + b * -v + c * -w
  {
    assert a * -u == -(a * u) && b * -v == -(b * v) && c * -w == -(c * w);
  }
}
