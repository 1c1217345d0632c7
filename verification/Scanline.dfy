// Scanline fill of a convex quad into a BGRA buffer with a linear gradient, over the reals,
// against a definition that looks at one pixel at a time.

module Scanline {
  import opened Prelude

  const EPS: real := 0.000000001

  datatype Point = Point(x: real, y: real)

  datatype Quad = Quad(p0: Point, p1: Point, p2: Point, p3: Point)

  datatype Bgra = Bgra(b: u8, g: u8, r: u8, a: u8)

  const CLEAR := Bgra(0, 0, 0, 0)

  datatype Gradient = Gradient(start: Point, end: Point, startColour: Bgra, endColour: Bgra)

  function Vertex(q: Quad, i: nat): Point
    requires i < 4
  {
    if i == 0 then q.p0 else if i == 1 then q.p1 else if i == 2 then q.p2 else q.p3
  }

  // Edge `i` runs from vertex `i` to the next one; its ends by height.
  function Low(q: Quad, i: nat): Point
    requires i < 4
  {
    var a, b := Vertex(q, i), Vertex(q, (i + 1) % 4);
    if a.y <= b.y then a else b
  }

  function High(q: Quad, i: nat): Point
    requires i < 4
  {
    var a, b := Vertex(q, i), Vertex(q, (i + 1) % 4);
    if a.y <= b.y then b else a
  }

  // ---------------------------------------------------------------------
  // One pixel at a time
  // ---------------------------------------------------------------------

  // The height `y` is in the half-open height range of the edge.
  predicate Crosses(q: Quad, i: nat, y: real)
    requires i < 4
  {
    Low(q, i).y <= y < High(q, i).y
  }

  function CrossX(q: Quad, i: nat, y: real): real
    requires i < 4 && Crosses(q, i, y)
  {
    var lo, hi := Low(q, i), High(q, i);
    lo.x + (y - lo.y) / (hi.y - lo.y) * (hi.x - lo.x)
  }

  predicate LeftEdge(q: Quad, i: nat, x: real, y: real)
    requires i < 4
  {
    Crosses(q, i, y) && CrossX(q, i, y) <= x
  }

  predicate RightEdge(q: Quad, i: nat, x: real, y: real)
    requires i < 4
  {
    Crosses(q, i, y) && CrossX(q, i, y) >= x + EPS
  }

  // The quad's boundary passes at or left of the point, and right of it by at least EPS.
  predicate Covered(q: Quad, x: real, y: real) {
    && (LeftEdge(q, 0, x, y) || LeftEdge(q, 1, x, y) || LeftEdge(q, 2, x, y) || LeftEdge(q, 3, x, y))
    && (RightEdge(q, 0, x, y) || RightEdge(q, 1, x, y) || RightEdge(q, 2, x, y) || RightEdge(q, 3, x, y))
  }

  // An edge too flat to intersect passes the height.
  predicate ThinEdge(q: Quad, i: nat, y: real)
    requires i < 4
  {
    Crosses(q, i, y) && High(q, i).y - Low(q, i).y < EPS
  }

  predicate ThinRow(q: Quad, y: real) {
    ThinEdge(q, 0, y) || ThinEdge(q, 1, y) || ThinEdge(q, 2, y) || ThinEdge(q, 3, y)
  }

  function Clamp01(t: real): real {
    if t < 0.0 then 0.0 else if t > 1.0 then 1.0 else t
  }

  // Nearest byte on the line from `a` to `b`.
  function Mix(a: u8, b: u8, t: real): u8
    requires 0.0 <= t <= 1.0
  {
    var v := a as int as real * (1.0 - t) + b as int as real * t;
    MixInRange(a as int as real, b as int as real, t);
    (v + 0.5).Floor as u8
  }

  lemma MixInRange(a: real, b: real, t: real)
    requires 0.0 <= a <= 255.0 && 0.0 <= b <= 255.0 && 0.0 <= t <= 1.0
    ensures 0.0 <= a * (1.0 - t) + b * t <= 255.0
  {
    assert 0.0 <= a * (1.0 - t) <= 255.0 * (1.0 - t);
    assert 0.0 <= b * t <= 255.0 * t;
  }

  function MixAll(g: Gradient, t: real): Bgra {
    var s, e, c := g.startColour, g.endColour, Clamp01(t);
    Bgra(Mix(s.b, e.b, c), Mix(s.g, e.g, c), Mix(s.r, e.r, c), Mix(s.a, e.a, c))
  }

  function Length2(g: Gradient): real {
    var gx, gy := g.end.x - g.start.x, g.end.y - g.start.y;
    gx * gx + gy * gy
  }

  function InverseLength2(g: Gradient): real {
    if Length2(g) > EPS then 1.0 / Length2(g) else 0.0
  }

  // Where the pixel's centre projects on the gradient line; the end colour when the line is too
  // short to project on.
  function Position(g: Gradient, px: int, y: real): real {
    var gx, gy := g.end.x - g.start.x, g.end.y - g.start.y;
    if Length2(g) > EPS then
      ((px as real + 0.5 - g.start.x) * gx + (y - g.start.y) * gy) * InverseLength2(g)
    else 1.0
  }

  function RowCentre(py: int): real {
    py as real + 0.5
  }

  function Pixel(q: Quad, g: Gradient, px: int, py: int): Bgra {
    if Covered(q, px as real, RowCentre(py))
        && !ThinRow(q, RowCentre(py)) then MixAll(g, Position(g, px, RowCentre(py)))
    else CLEAR
  }

  function Channel(c: Bgra, i: int): u8 {
    if i == 0 then c.b else if i == 1 then c.g else if i == 2 then c.r else c.a
  }

  type Paint = (int, int) -> Bgra

  function PaintOf(q: Quad, g: Gradient): Paint {
    (px: int, py: int) => Pixel(q, g, px, py)
  }

  function Row(paint: Paint, w: nat, py: nat): (r: bytes)
    ensures |r| == 4 * w
  {
    seq(4 * w, k requires 0 <= k < 4 * w => Channel(paint(k / 4, py), k % 4))
  }

  function Image(paint: Paint, w: nat, h: nat): (r: bytes)
    ensures |r| == h * (4 * w)
  {
    if h == 0 then [] else Image(paint, w, h - 1) + Row(paint, w, h - 1)
  }

  // ---------------------------------------------------------------------
  // How often a row crosses the quad
  // ---------------------------------------------------------------------

  function CountOne(b: bool): nat {
    if b then 1 else 0
  }

  function CrossCount(q: Quad, y: real): nat {
    CountOne(Crosses(q, 0, y)) + CountOne(Crosses(q, 1, y)) + CountOne(Crosses(q, 2, y)) + CountOne(Crosses(q, 3, y))
  }

  function MaxReal(a: real, b: real): real {
    if a < b then b else a
  }

  function MinReal(a: real, b: real): real {
    if a < b then a else b
  }

  // One diagonal lies entirely above the other.
  predicate DiagonalsApart(q: Quad) {
    || MaxReal(q.p0.y, q.p2.y) < MinReal(q.p1.y, q.p3.y)
    || MaxReal(q.p1.y, q.p3.y) < MinReal(q.p0.y, q.p2.y)
  }

  // A point on both diagonals: the quad is convex, possibly with vertices in a line or coinciding.
  ghost predicate DiagonalsMeet(q: Quad) {
    exists s: real, t: real :: MeetAt(q, s, t)
  }

  predicate MeetAt(q: Quad, s: real, t: real) {
    && 0.0 <= s <= 1.0 && 0.0 <= t <= 1.0
    && q.p0.x + (q.p2.x - q.p0.x) * s == q.p1.x + (q.p3.x - q.p1.x) * t
    && q.p0.y + (q.p2.y - q.p0.y) * s == q.p1.y + (q.p3.y - q.p1.y) * t
  }

  lemma Between(a: real, b: real, s: real)
    requires 0.0 <= s <= 1.0
    ensures MinReal(a, b) <= a + (b - a) * s <= MaxReal(a, b)
  {
    var d := b - a;
    if d >= 0.0 {
      Fraction(d, s);
    } else {
      Fraction(-d, s);
      Negate(d, s);
    }
  }

  lemma Negate(d: real, s: real)
    ensures (-d) * s == -(d * s)
  {}

  lemma NotNegative(a: real, b: real)
    requires a >= 0.0 && b >= 0.0
    ensures a * b >= 0.0
  {}

  lemma Fraction(d: real, s: real)
    requires d >= 0.0 && 0.0 <= s <= 1.0
    ensures 0.0 <= d * s <= d
  {
    NotNegative(d, s);
    NotNegative(d, 1.0 - s);
    assert d * (1.0 - s) == d - d * s;
  }

  lemma ConvexIsNotApart(q: Quad)
    requires DiagonalsMeet(q)
    ensures !DiagonalsApart(q)
  {
    var s, t :| MeetAt(q, s, t);
    MeetBetween(q.p0.y, q.p2.y, q.p1.y, q.p3.y, s, t);
  }

  lemma MeetBetween(a: real, b: real, c: real, d: real, s: real, t: real)
    requires 0.0 <= s <= 1.0 && 0.0 <= t <= 1.0 && a + (b - a) * s == c + (d - c) * t
    ensures MaxReal(a, b) >= MinReal(c, d) && MaxReal(c, d) >= MinReal(a, b)
  {
    Between(a, b, s);
    Between(c, d, t);
  }

  // Every height crosses an even number of edges, and never all four, exactly when the diagonals
  // are not one above the other; so a convex quad is crossed 0 or 2 times.
  lemma CrossCountIff(q: Quad)
    ensures (forall y: real :: CrossCount(q, y) == 0 || CrossCount(q, y) == 2) <==> !DiagonalsApart(q)
  {
    if DiagonalsApart(q) {
      var y := if MaxReal(q.p0.y, q.p2.y) < MinReal(q.p1.y, q.p3.y)
          then MaxReal(q.p0.y, q.p2.y) else MaxReal(q.p1.y, q.p3.y);
      assert CrossCount(q, y) == 4;
    } else {
      forall y: real ensures CrossCount(q, y) == 0 || CrossCount(q, y) == 2 {
        ZeroOrTwo(q, y);
      }
    }
  }

  lemma ZeroOrTwo(q: Quad, y: real)
    requires !DiagonalsApart(q)
    ensures CrossCount(q, y) == 0 || CrossCount(q, y) == 2
  {}

  // ---------------------------------------------------------------------
  // The crossings of one row, as the code collects them
  // ---------------------------------------------------------------------

  // Crossings with edges that are not too flat, in edge order.
  function Thick(q: Quad, i: nat, y: real): seq<real>
    requires i < 4
  {
    if Crosses(q, i, y) && !ThinEdge(q, i, y) then [CrossX(q, i, y)] else []
  }

  function Crossings(q: Quad, n: nat, y: real): (xs: seq<real>)
    requires n <= 4
    ensures |xs| <= n
  {
    if n == 0 then [] else Crossings(q, n - 1, y) + Thick(q, n - 1, y)
  }

  // A span of a row, in pixel columns `x0 <= px < x1`; empty when `x1 <= x0`.
  datatype Span = Span(x0: int, x1: int)

  function Ceiling(r: real): int {
    -((-r).Floor)
  }

  function ClampInt(n: int, lo: int, hi: int): int
    requires lo <= hi
  {
    if n < lo then lo else if n > hi then hi else n
  }

  function SpanOf(xs: seq<real>, w: nat): Span {
    if |xs| < 2 then Span(0, 0)
    else
      var a, b := xs[0], xs[|xs| - 1];
      Span(ClampInt(Ceiling(MinReal(a, b)), 0, w), ClampInt((MaxReal(a, b) - EPS).Floor + 1, 0, w))
  }

  lemma FourCrossings(q: Quad, y: real)
    ensures Crossings(q, 4, y) == Thick(q, 0, y) + Thick(q, 1, y) + Thick(q, 2, y) + Thick(q, 3, y)
  {
    assert Crossings(q, 4, y) == Crossings(q, 3, y) + Thick(q, 3, y);
    assert Crossings(q, 3, y) == Crossings(q, 2, y) + Thick(q, 2, y);
    assert Crossings(q, 2, y) == Crossings(q, 1, y) + Thick(q, 1, y);
    assert Crossings(q, 1, y) == [] + Thick(q, 0, y);
  }

  lemma ColumnIn(a: real, b: real, w: nat, px: int)
    requires 0 <= px < w
    ensures ClampInt(Ceiling(a), 0, w) <= px < ClampInt((b - EPS).Floor + 1, 0, w)
            <==> a <= px as real && px as real + EPS <= b
  {}

  // The span holds exactly the columns that are covered, and none on a row with a flat edge.
  lemma SpanIsCover(q: Quad, w: nat, px: int, y: real)
    requires !DiagonalsApart(q) && 0 <= px < w
    ensures var s := SpanOf(Crossings(q, 4, y), w);
            s.x0 <= px < s.x1 <==> Covered(q, px as real, y) && !ThinRow(q, y)
  {
    var xs := Crossings(q, 4, y);
    FourCrossings(q, y);
    ZeroOrTwo(q, y);
    if |xs| == 2 {
      ColumnIn(MinReal(xs[0], xs[1]), MaxReal(xs[0], xs[1]), w, px);
      TwoCover(q, px as real, y);
    } else {
      FewCover(q, px as real, y);
    }
  }

  lemma TwoCover(q: Quad, x: real, y: real)
    requires !DiagonalsApart(q) && |Crossings(q, 4, y)| == 2
    ensures !ThinRow(q, y)
    ensures var xs := Crossings(q, 4, y);
            Covered(q, x, y) <==> MinReal(xs[0], xs[1]) <= x && x + EPS <= MaxReal(xs[0], xs[1])
  {
    FourCrossings(q, y);
    ZeroOrTwo(q, y);
  }

  lemma FewCover(q: Quad, x: real, y: real)
    requires !DiagonalsApart(q) && |Crossings(q, 4, y)| != 2
    ensures |Crossings(q, 4, y)| < 2
    ensures !(Covered(q, x, y) && !ThinRow(q, y))
  {
    FourCrossings(q, y);
    ZeroOrTwo(q, y);
  }

  // ---------------------------------------------------------------------
  // The bounding rows
  // ---------------------------------------------------------------------

  function TopOf(q: Quad): real {
    MinReal(MinReal(q.p0.y, q.p1.y), MinReal(q.p2.y, q.p3.y))
  }

  function BottomOf(q: Quad): real {
    MaxReal(MaxReal(q.p0.y, q.p1.y), MaxReal(q.p2.y, q.p3.y))
  }

  function LeftOf(q: Quad): real {
    MinReal(MinReal(q.p0.x, q.p1.x), MinReal(q.p2.x, q.p3.x))
  }

  function RightOf(q: Quad): real {
    MaxReal(MaxReal(q.p0.x, q.p1.x), MaxReal(q.p2.x, q.p3.x))
  }

  // Rows the code clears without looking are crossed by no edge.
  lemma OutsideRows(q: Quad, h: nat, py: int)
    requires 0 <= py < h
    requires py < MaxInt(TopOf(q).Floor, 0) || py > MinInt(Ceiling(BottomOf(q)), h - 1)
    ensures CrossCount(q, RowCentre(py)) == 0
  {}

  function MaxInt(a: int, b: int): int {
    if a < b then b else a
  }

  function MinInt(a: int, b: int): int {
    if a < b then a else b
  }

  lemma NotCrossedNotCovered(q: Quad, x: real, y: real)
    requires CrossCount(q, y) == 0
    ensures !Covered(q, x, y)
  {}

  // ---------------------------------------------------------------------
  // The recurrence
  // ---------------------------------------------------------------------

  function Slope(g: Gradient): real {
    (g.end.x - g.start.x) * InverseLength2(g)
  }

  // One column to the right moves the projection by the slope.
  lemma PositionStep(g: Gradient, px: int, y: real)
    ensures Position(g, px + 1, y) == Position(g, px, y) + Slope(g)
  {
    if Length2(g) > EPS {
      var a, gx, inv := px as real + 0.5 - g.start.x, g.end.x - g.start.x, InverseLength2(g);
      var rest := (y - g.start.y) * (g.end.y - g.start.y);
      assert (px + 1) as real + 0.5 - g.start.x == a + 1.0;
      Distribute(a, gx, rest, inv);
    }
  }

  lemma Distribute(a: real, gx: real, rest: real, inv: real)
    ensures ((a + 1.0) * gx + rest) * inv == (a * gx + rest) * inv + gx * inv
  {
    assert (a + 1.0) * gx == a * gx + gx;
    var m := a * gx + rest;
    assert (m + gx) * inv == m * inv + gx * inv;
  }

  // ---------------------------------------------------------------------
  // The loops of the code
  // ---------------------------------------------------------------------

  // Single-pass minimum and maximum of the four vertices.
  method Bounds(q: Quad) returns (minX: real, minY: real, maxX: real, maxY: real)
    ensures minX == LeftOf(q) && maxX == RightOf(q)
    ensures minY == TopOf(q) && maxY == BottomOf(q)
  {
    minX, minY, maxX, maxY := q.p0.x, q.p0.y, q.p0.x, q.p0.y;
    var i := 1;
    while i < 4
      invariant 1 <= i <= 4
      invariant i == 1 ==> minX == maxX == q.p0.x && minY == maxY == q.p0.y
      invariant i == 2 ==> minX == MinReal(q.p0.x, q.p1.x) && maxX == MaxReal(q.p0.x, q.p1.x)
      invariant i == 2 ==> minY == MinReal(q.p0.y, q.p1.y) && maxY == MaxReal(q.p0.y, q.p1.y)
      invariant i == 3 ==> minX == MinReal(MinReal(q.p0.x, q.p1.x), q.p2.x)
      invariant i == 3 ==> maxX == MaxReal(MaxReal(q.p0.x, q.p1.x), q.p2.x)
      invariant i == 3 ==> minY == MinReal(MinReal(q.p0.y, q.p1.y), q.p2.y)
      invariant i == 3 ==> maxY == MaxReal(MaxReal(q.p0.y, q.p1.y), q.p2.y)
      invariant i == 4 ==> minX == LeftOf(q) && maxX == RightOf(q)
      invariant i == 4 ==> minY == TopOf(q) && maxY == BottomOf(q)
    {
      var p := Vertex(q, i);
      if p.x < minX {
        minX := p.x;
      }
      if p.x > maxX {
        maxX := p.x;
      }
      if p.y < minY {
        minY := p.y;
      }
      if p.y > maxY {
        maxY := p.y;
      }
      i := i + 1;
    }
  }

  // The first crossing of the row goes to one end of the span, every later one to the other.
  method ScanRow(q: Quad, w: nat, y: real) returns (s: Span)
    ensures s == SpanOf(Crossings(q, 4, y), w)
  {
    var xLo: Option<real>, xHi: Option<real> := None, None;
    var i := 0;
    while i < 4
      invariant i <= 4
      invariant Ends(Crossings(q, i, y), xLo, xHi)
    {
      var x := Intersect(q, i, y);
      EndsNext(Crossings(q, i, y), Thick(q, i, y), xLo, xHi);
      i := i + 1;
      if x.None? {
        continue;
      }
      if xLo.None? {
        xLo := x;
      } else {
        xHi := x;
      }
    }
    if xLo.None? || xHi.None? {
      return Span(0, 0);
    }
    var a, b := MinReal(xLo.value, xHi.value), MaxReal(xLo.value, xHi.value);
    return Span(ClampInt(Ceiling(a), 0, w), ClampInt((b - EPS).Floor + 1, 0, w));
  }

  // Where the row meets edge `i`, if it does.
  method Intersect(q: Quad, i: nat, y: real) returns (x: Option<real>)
    requires i < 4
    ensures Thick(q, i, y) == if x.Some? then [x.value] else []
  {
    var lo, hi := Low(q, i), High(q, i);
    if y < lo.y || y >= hi.y {
      return None;
    }
    if hi.y - lo.y < EPS {
      return None;
    }
    return Some(CrossX(q, i, y));
  }

  lemma EndsNext(xs: seq<real>, more: seq<real>, xLo: Option<real>, xHi: Option<real>)
    requires Ends(xs, xLo, xHi) && |more| <= 1
    ensures more == [] ==> Ends(xs + more, xLo, xHi)
    ensures more != [] && xLo.None? ==> Ends(xs + more, Some(more[0]), xHi)
    ensures more != [] && xLo.Some? ==> Ends(xs + more, xLo, Some(more[0]))
  {
    if more == [] {
      assert xs + more == xs;
    }
  }

  predicate Ends(xs: seq<real>, xLo: Option<real>, xHi: Option<real>) {
    && (xLo.None? <==> xs == [])
    && (xLo.Some? ==> xLo.value == xs[0])
    && (xHi.Some? <==> |xs| >= 2)
    && (xHi.Some? ==> xHi.value == xs[|xs| - 1])
  }

  // Everything outside `lo..hi` is as it was.
  twostate predicate OnlyRange(data: array<u8>, lo: int, hi: int)
    reads data
  {
    forall k :: 0 <= k < data.Length && !(lo <= k < hi) ==> data[k] == old(data[k])
  }

  method Clear(data: array<u8>, lo: nat, hi: nat)
    requires lo <= hi <= data.Length
    modifies data
    ensures forall k :: lo <= k < hi ==> data[k] == 0
    ensures OnlyRange(data, lo, hi)
  {
    var k := lo;
    while k < hi
      invariant lo <= k <= hi
      invariant forall j :: lo <= j < k ==> data[j] == 0
      invariant OnlyRange(data, lo, k)
    {
      data[k] := 0;
      k := k + 1;
    }
  }

  method WritePixel(data: array<u8>, at: nat, c: Bgra)
    requires at + 4 <= data.Length
    modifies data
    ensures forall i :: 0 <= i < 4 ==> data[at + i] == Channel(c, i)
    ensures OnlyRange(data, at, at + 4)
  {
    data[at], data[at + 1], data[at + 2], data[at + 3] := c.b, c.g, c.r, c.a;
  }

  // The bytes of columns `from..upTo` of the row at `off`.
  ghost predicate Painted(data: bytes, off: nat, paint: Paint, py: nat, from: int, upTo: int)
    requires 0 <= from <= upTo && off + 4 * upTo <= |data|
  {
    forall k :: 4 * from <= k < 4 * upTo ==> data[off + k] == Channel(paint(k / 4, py), k % 4)
  }

  lemma PaintedNext(before: bytes, after: bytes, off: nat, paint: Paint, py: nat, x0: nat, x: nat, c: Bgra)
    requires x0 <= x && off + 4 * x + 4 <= |before| == |after| && Painted(before, off, paint, py, x0, x)
    requires paint(x, py) == c && forall i :: 0 <= i < 4 ==> after[off + 4 * x + i] == Channel(c, i)
    requires forall k :: 0 <= k < off + 4 * x ==> after[k] == before[k]
    ensures Painted(after, off, paint, py, x0, x + 1)
  {
    forall k | 4 * x0 <= k < 4 * (x + 1) ensures after[off + k] == Channel(paint(k / 4, py), k % 4) {
      if k >= 4 * x {
        assert k / 4 == x && after[off + 4 * x + (k - 4 * x)] == Channel(c, k - 4 * x);
      }
    }
  }

  method FillSpan(data: array<u8>, off: nat, g: Gradient, py: nat, x0: nat, x1: nat, ghost paint: Paint)
    requires x0 < x1 && off + 4 * x1 <= data.Length
    requires forall px :: x0 <= px < x1 ==> paint(px, py) == MixAll(g, Position(g, px, RowCentre(py)))
    modifies data
    ensures Painted(data[..], off, paint, py, x0, x1)
    ensures OnlyRange(data, off + 4 * x0, off + 4 * x1)
  {
    var t, dt := Position(g, x0, RowCentre(py)), Slope(g);
    var x := x0;
    while x < x1
      invariant x0 <= x <= x1
      invariant t == Position(g, x, RowCentre(py))
      invariant Painted(data[..], off, paint, py, x0, x)
      invariant OnlyRange(data, off + 4 * x0, off + 4 * x)
    {
      var c := MixAll(g, t);
      assert paint(x, py) == c;
      ghost var before := data[..];
      WritePixel(data, off + 4 * x, c);
      PaintedNext(before, data[..], off, paint, py, x0, x, c);
      PositionStep(g, x, RowCentre(py));
      t := t + dt;
      x := x + 1;
    }
  }

  // Columns known to be transparent, cleared.
  lemma ClearIsPainted(data: bytes, off: nat, paint: Paint, py: nat, from: nat, upTo: nat)
    requires from <= upTo && off + 4 * upTo <= |data|
    requires forall k :: off + 4 * from <= k < off + 4 * upTo ==> data[k] == 0
    requires forall px :: from <= px < upTo ==> paint(px, py) == CLEAR
    ensures Painted(data, off, paint, py, from, upTo)
  {
    forall k | 4 * from <= k < 4 * upTo ensures data[off + k] == Channel(paint(k / 4, py), k % 4) {
      assert paint(k / 4, py) == CLEAR;
    }
  }

  method ClearColumns(data: array<u8>, off: nat, py: nat, from: nat, upTo: nat, ghost paint: Paint)
    requires from <= upTo && off + 4 * upTo <= data.Length
    requires forall px :: from <= px < upTo ==> paint(px, py) == CLEAR
    modifies data
    ensures Painted(data[..], off, paint, py, from, upTo)
    ensures OnlyRange(data, off + 4 * from, off + 4 * upTo)
  {
    Clear(data, off + 4 * from, off + 4 * upTo);
    ClearIsPainted(data[..], off, paint, py, from, upTo);
  }

  // One row between the bounding rows.
  method FillRow(data: array<u8>, off: nat, q: Quad, g: Gradient, w: nat, py: nat, ghost paint: Paint)
    requires off + 4 * w <= data.Length && !DiagonalsApart(q) && paint == PaintOf(q, g)
    modifies data
    ensures Painted(data[..], off, paint, py, 0, w)
    ensures OnlyRange(data, off, off + 4 * w)
  {
    var s := ScanRow(q, w, RowCentre(py));
    SpanColours(q, g, w, py, s);
    if s.x1 <= s.x0 {
      ClearColumns(data, off, py, 0, w, paint);
      return;
    }
    ClearColumns(data, off, py, 0, s.x0, paint);
    FillSpan(data, off, g, py, s.x0, s.x1, paint);
    ClearColumns(data, off, py, s.x1, w, paint);
  }

  lemma SpanColours(q: Quad, g: Gradient, w: nat, py: nat, s: Span)
    requires !DiagonalsApart(q) && s == SpanOf(Crossings(q, 4, RowCentre(py)), w)
    ensures 0 <= s.x0 <= w && 0 <= s.x1 <= w
    ensures forall px :: 0 <= px < w ==>
              Pixel(q, g, px, py) == if s.x0 <= px < s.x1 then MixAll(g, Position(g, px, RowCentre(py))) else CLEAR
  {
    forall px | 0 <= px < w
      ensures Pixel(q, g, px, py) == if s.x0 <= px < s.x1 then MixAll(g, Position(g, px, RowCentre(py))) else CLEAR
    {
      SpanIsCover(q, w, px, RowCentre(py));
    }
  }

  lemma RowFits(py: nat, h: nat, stride: nat)
    requires py < h
    ensures (py + 1) * stride == py * stride + stride <= h * stride
  {
    var left := h - (py + 1);
    assert h * stride == (py + 1) * stride + left * stride;
  }

  lemma PaintedIsRow(data: bytes, off: nat, paint: Paint, w: nat, py: nat)
    requires off + 4 * w <= |data| && Painted(data, off, paint, py, 0, w)
    ensures data[off..off + 4 * w] == Row(paint, w, py)
  {}

  // Whatever the buffer held before, every byte of it is the channel of its pixel: covered pixels
  // take the gradient's colour at their centre, all others are transparent.
  method FillPolygon(data: array<u8>, w: nat, h: nat, q: Quad, g: Gradient)
    requires data.Length == h * (4 * w) && !DiagonalsApart(q)
    modifies data
    ensures data[..] == Image(PaintOf(q, g), w, h)
  {
    ghost var paint := PaintOf(q, g);
    var stride := 4 * w;
    var _, minY, _, maxY := Bounds(q);
    var top, bottom := MaxInt(minY.Floor, 0), MinInt(Ceiling(maxY), h - 1);
    var py := 0;
    while py < h
      invariant py <= h && py * stride <= data.Length
      invariant data[..py * stride] == Image(paint, w, py)
    {
      var off := py * stride;
      ghost var done := data[..off];
      RowFits(py, h, stride);
      if py < top || py > bottom {
        OutsideIsClear(q, g, h, w, py);
        ClearColumns(data, off, py, 0, w, paint);
      } else {
        FillRow(data, off, q, g, w, py, paint);
      }
      PaintedIsRow(data[..], off, paint, w, py);
      assert data[..off] == done;
      assert data[..off + stride] == data[..off] + data[off..off + stride];
      py := py + 1;
    }
    assert data[..] == data[..h * stride];
  }

  lemma OutsideIsClear(q: Quad, g: Gradient, h: nat, w: nat, py: nat)
    requires py < h
    requires py < MaxInt(TopOf(q).Floor, 0) || py > MinInt(Ceiling(BottomOf(q)), h - 1)
    ensures forall px :: 0 <= px < w ==> Pixel(q, g, px, py) == CLEAR
  {
    OutsideRows(q, h, py);
    forall px | 0 <= px < w ensures Pixel(q, g, px, py) == CLEAR {
      NotCrossedNotCovered(q, px as real, RowCentre(py));
    }
  }

  // ---------------------------------------------------------------------
  // What the image shows
  // ---------------------------------------------------------------------

  // Byte `c` of pixel (px, py) of an image.
  lemma {:induction false} ImageAt(paint: Paint, w: nat, h: nat, px: nat, py: nat, c: nat)
    requires px < w && py < h && c < 4
    ensures py * (4 * w) + 4 * px + c < |Image(paint, w, h)|
    ensures Image(paint, w, h)[py * (4 * w) + 4 * px + c] == Channel(paint(px, py), c)
  {
    RowFits(py, h, 4 * w);
    if py < h - 1 {
      RowFits(py, h - 1, 4 * w);
      ImageAt(paint, w, h - 1, px, py, c);
    } else {
      var k := 4 * px + c;
      assert k / 4 == px && k % 4 == c;
      assert Row(paint, w, py)[k] == Channel(paint(px, py), c);
    }
  }

  predicate Shows(img: bytes, w: nat, px: nat, py: nat, c: Bgra) {
    var at := py * (4 * w) + 4 * px;
    at + 4 <= |img| && img[at..at + 4] == [c.b, c.g, c.r, c.a]
  }

  // The four bytes of pixel (px, py): blue, green, red, alpha.
  lemma ImagePixel(paint: Paint, w: nat, h: nat, px: nat, py: nat)
    requires px < w && py < h
    ensures Shows(Image(paint, w, h), w, px, py, paint(px, py))
  {
    ImageAt(paint, w, h, px, py, 0);
    ImageAt(paint, w, h, px, py, 1);
    ImageAt(paint, w, h, px, py, 2);
    ImageAt(paint, w, h, px, py, 3);
  }

  // ---------------------------------------------------------------------
  // What the edges are
  // ---------------------------------------------------------------------

  // The point is on the segment from one vertex to the next.
  ghost predicate OnEdge(q: Quad, i: nat, x: real, y: real)
    requires i < 4
  {
    exists s: real :: OnEdgeAt(q, i, s, x, y)
  }

  predicate OnEdgeAt(q: Quad, i: nat, s: real, x: real, y: real)
    requires i < 4
  {
    EdgePoint(Vertex(q, i), Vertex(q, (i + 1) % 4), s, x, y)
  }

  predicate EdgePoint(a: Point, b: Point, s: real, x: real, y: real) {
    0.0 <= s <= 1.0 && x == a.x + (b.x - a.x) * s && y == a.y + (b.y - a.y) * s
  }

  // Where a height crosses an edge, it does so in exactly one point of the segment.
  lemma CrossIsOnEdge(q: Quad, i: nat, x: real, y: real)
    requires i < 4 && Crosses(q, i, y)
    ensures OnEdge(q, i, x, y) <==> x == CrossX(q, i, y)
  {
    var a, b := Vertex(q, i), Vertex(q, (i + 1) % 4);
    var lo, hi := Low(q, i), High(q, i);
    var f := (y - lo.y) / (hi.y - lo.y);
    FractionOf(y - lo.y, hi.y - lo.y);
    assert EdgePoint(lo, hi, f, CrossX(q, i, y), y);
    Reverse(lo, hi, f, CrossX(q, i, y), y);
    if x == CrossX(q, i, y) {
      assert OnEdgeAt(q, i, if lo == a then f else 1.0 - f, x, y);
    }
    if OnEdge(q, i, x, y) {
      var s: real :| OnEdgeAt(q, i, s, x, y);
      Reverse(a, b, s, x, y);
      OnePoint(lo, hi, f, if lo == a then s else 1.0 - s, CrossX(q, i, y), x, y);
    }
  }

  // A segment that is not level meets a height once.
  lemma OnePoint(a: Point, b: Point, s: real, s': real, x: real, x': real, y: real)
    requires EdgePoint(a, b, s, x, y) && EdgePoint(a, b, s', x', y) && a.y < b.y
    ensures x == x'
  {
    OneFraction(b.y - a.y, s, s');
  }

  lemma FractionOf(n: real, d: real)
    requires 0.0 <= n < d
    ensures 0.0 <= n / d <= 1.0 && (n / d) * d == n
  {
    var f := n / d;
    assert f * d == n;
    var g := 1.0 - f;
    assert g * d == d - f * d;
    if f < 0.0 {
      NegativeTimes(f, d);
    }
    if g < 0.0 {
      NegativeTimes(g, d);
    }
  }

  lemma NegativeTimes(a: real, b: real)
    requires a < 0.0 < b
    ensures a * b < 0.0
  {}

  // The same point seen from the other end.
  lemma Reverse(a: Point, b: Point, s: real, x: real, y: real)
    requires EdgePoint(a, b, s, x, y)
    ensures EdgePoint(b, a, 1.0 - s, x, y)
  {
    Swap(a.x, b.x, s);
    Swap(a.y, b.y, s);
  }

  lemma Swap(a: real, b: real, s: real)
    ensures b + (a - b) * (1.0 - s) == a + (b - a) * s
  {}

  lemma OneFraction(d: real, a: real, b: real)
    requires d > 0.0 && d * a == d * b
    ensures a == b
  {
    assert d * (a - b) == 0.0;
  }

  // ---------------------------------------------------------------------
  // What the gradient shows
  // ---------------------------------------------------------------------

  // The point of the line from `a` to `b`, before rounding.
  function Exact(a: u8, b: u8, t: real): real {
    a as int as real + (b as int as real - a as int as real) * t
  }

  // The mixed byte is the exact point rounded to the nearest byte.
  lemma MixIsNearest(a: u8, b: u8, t: real)
    requires 0.0 <= t <= 1.0
    ensures Exact(a, b, t) - 0.5 < Mix(a, b, t) as int as real <= Exact(a, b, t) + 0.5
  {
    MixInRange(a as int as real, b as int as real, t);
    assert Exact(a, b, t) == a as int as real * (1.0 - t) + b as int as real * t;
  }

  // It is the first colour at 0, the second at 1, and never outside them.
  lemma MixEnds(a: u8, b: u8, t: real)
    requires 0.0 <= t <= 1.0
    ensures Mix(a, b, 0.0) == a && Mix(a, b, 1.0) == b
    ensures a <= b ==> a <= Mix(a, b, t) <= b
    ensures b <= a ==> b <= Mix(a, b, t) <= a
  {
    var x, y := a as int, b as int;
    MixIsNearest(a, b, 0.0);
    MixIsNearest(a, b, 1.0);
    MixIsNearest(a, b, t);
    Between(x as real, y as real, t);
    ExactEnds(a, b);
    NearestWithin(x, x, Exact(a, b, 0.0), Mix(a, b, 0.0) as int);
    NearestWithin(y, y, Exact(a, b, 1.0), Mix(a, b, 1.0) as int);
    if x < y {
      NearestWithin(x, y, Exact(a, b, t), Mix(a, b, t) as int);
    } else {
      NearestWithin(y, x, Exact(a, b, t), Mix(a, b, t) as int);
    }
  }

  lemma ExactEnds(a: u8, b: u8)
    ensures Exact(a, b, 0.0) == a as int as real && Exact(a, b, 1.0) == b as int as real
  {}

  lemma ExactDifference(a: u8, b: u8, s: real, t: real)
    ensures Exact(a, b, t) - Exact(a, b, s) == (b as int as real - a as int as real) * (t - s)
  {}

  lemma NearestWithin(lo: int, hi: int, exact: real, n: int)
    requires lo as real <= exact <= hi as real && exact - 0.5 < n as real <= exact + 0.5
    ensures lo <= n <= hi
  {}

  lemma MixMonotone(a: u8, b: u8, s: real, t: real)
    requires 0.0 <= s <= t <= 1.0
    ensures a <= b ==> Mix(a, b, s) <= Mix(a, b, t)
    ensures b <= a ==> Mix(a, b, t) <= Mix(a, b, s)
  {
    MixFloor(a, b, s);
    MixFloor(a, b, t);
    if a <= b {
      ExactRises(a, b, s, t);
    }
    if b <= a {
      ExactFalls(a, b, s, t);
    }
  }

  lemma ExactRises(a: u8, b: u8, s: real, t: real)
    requires s <= t && a <= b
    ensures Exact(a, b, s) <= Exact(a, b, t)
  {
    ExactDifference(a, b, s, t);
    NotNegative(b as int as real - a as int as real, t - s);
  }

  lemma ExactFalls(a: u8, b: u8, s: real, t: real)
    requires s <= t && b <= a
    ensures Exact(a, b, t) <= Exact(a, b, s)
  {
    ExactDifference(a, b, s, t);
    NotNegative(a as int as real - b as int as real, t - s);
    Negate(b as int as real - a as int as real, t - s);
  }

  lemma MixFloor(a: u8, b: u8, t: real)
    requires 0.0 <= t <= 1.0
    ensures Mix(a, b, t) as int == (Exact(a, b, t) + 0.5).Floor
  {
    MixInRange(a as int as real, b as int as real, t);
    assert Exact(a, b, t) == a as int as real * (1.0 - t) + b as int as real * t;
  }

  // `t` is where the point projects on the gradient line: what separates it from that point of the
  // line is perpendicular to the line.
  predicate ProjectsAt(g: Gradient, x: real, y: real, t: real) {
    var gx, gy := g.end.x - g.start.x, g.end.y - g.start.y;
    (x - (g.start.x + t * gx)) * gx + (y - (g.start.y + t * gy)) * gy == 0.0
  }

  // A pixel's position is where its centre projects, and nowhere else: 0 at the start of the
  // gradient, 1 at its end.
  lemma PositionProjects(g: Gradient, px: int, y: real, t: real)
    requires Length2(g) > EPS
    ensures ProjectsAt(g, px as real + 0.5, y, t) <==> t == Position(g, px, y)
    ensures (g.start == Point(px as real + 0.5, y) ==> Position(g, px, y) == 0.0)
    ensures (g.end == Point(px as real + 0.5, y) ==> Position(g, px, y) == 1.0)
  {
    var gx, gy, l := g.end.x - g.start.x, g.end.y - g.start.y, Length2(g);
    var dx, dy := px as real + 0.5 - g.start.x, y - g.start.y;
    var dot := dx * gx + dy * gy;
    DotSplit(dx, dy, gx, gy, t);
    assert px as real + 0.5 - (g.start.x + t * gx) == dx - t * gx;
    assert y - (g.start.y + t * gy) == dy - t * gy;
    TimesInverse(dot, l, t);
  }

  lemma DotSplit(dx: real, dy: real, gx: real, gy: real, t: real)
    ensures (dx - t * gx) * gx + (dy - t * gy) * gy == (dx * gx + dy * gy) - t * (gx * gx + gy * gy)
  {
    assert (dx - t * gx) * gx == dx * gx - t * (gx * gx);
    assert (dy - t * gy) * gy == dy * gy - t * (gy * gy);
  }

  lemma TimesInverse(n: real, d: real, t: real)
    requires d > 0.0
    ensures n - t * d == 0.0 <==> t == n * (1.0 / d)
    ensures n == d ==> n * (1.0 / d) == 1.0
    ensures n == 0.0 ==> n * (1.0 / d) == 0.0
  {
    var i := 1.0 / d;
    assert i * d == 1.0;
    Undo(n, i, d);
    Undo(t, d, i);
  }

  lemma Undo(n: real, a: real, b: real)
    requires a * b == 1.0
    ensures (n * a) * b == n
  {
    assert (n * a) * b == n * (a * b);
  }

  predicate Nearest(a: u8, b: u8, t: real, n: u8) {
    Exact(a, b, t) - 0.5 < n as int as real <= Exact(a, b, t) + 0.5
  }

  // Between the ends each channel is the nearest byte to its point of the line.
  lemma GradientBetween(g: Gradient, t: real)
    requires 0.0 <= t <= 1.0
    ensures var s, e, c := g.startColour, g.endColour, MixAll(g, t);
            && Nearest(s.b, e.b, t, c.b) && Nearest(s.g, e.g, t, c.g)
            && Nearest(s.r, e.r, t, c.r) && Nearest(s.a, e.a, t, c.a)
  {
    var s, e := g.startColour, g.endColour;
    MixIsNearest(s.b, e.b, t);
    MixIsNearest(s.g, e.g, t);
    MixIsNearest(s.r, e.r, t);
    MixIsNearest(s.a, e.a, t);
  }

  // A pixel that projects at or before the start has the start colour, one at or past the end, and
  // every pixel when the line is too short to project on, the end colour.
  lemma GradientEnds(g: Gradient, px: int, y: real)
    ensures var t := Position(g, px, y);
            && (t <= 0.0 ==> MixAll(g, t) == g.startColour)
            && (t >= 1.0 ==> MixAll(g, t) == g.endColour)
            && (Length2(g) <= EPS ==> MixAll(g, t) == g.endColour)
  {
    var s, e := g.startColour, g.endColour;
    MixEnds(s.b, e.b, 0.0);
    MixEnds(s.g, e.g, 0.0);
    MixEnds(s.r, e.r, 0.0);
    MixEnds(s.a, e.a, 0.0);
  }

  // So in the finished buffer: a visible pixel shows the start colour's four bytes if its centre
  // projects at or before the start of the gradient, and the end colour's at or past its end.
  lemma PictureEnds(q: Quad, g: Gradient, w: nat, h: nat, px: nat, py: nat)
    requires px < w && py < h && Covered(q, px as real, RowCentre(py)) && !ThinRow(q, RowCentre(py))
    ensures var img, t := Image(PaintOf(q, g), w, h), Position(g, px, RowCentre(py));
            && (t <= 0.0 ==> Shows(img, w, px, py, g.startColour))
            && (t >= 1.0 ==> Shows(img, w, px, py, g.endColour))
  {
    GradientEnds(g, px, RowCentre(py));
    ImagePixel(PaintOf(q, g), w, h, px, py);
  }

  // ---------------------------------------------------------------------
  // The rule for flat edges
  // ---------------------------------------------------------------------

  // The intended picture, without the code's rule for flat edges.
  function PlainPixel(q: Quad, g: Gradient, px: int, py: int): Bgra {
    if Covered(q, px as real, RowCentre(py)) then MixAll(g, Position(g, px, RowCentre(py))) else CLEAR
  }

  function PlainPaint(q: Quad, g: Gradient): Paint {
    (px: int, py: int) => PlainPixel(q, g, px, py)
  }

  // Two pictures are the same bytes exactly when they agree on every pixel of the buffer.
  lemma ImagesAgreeIff(a: Paint, b: Paint, w: nat, h: nat)
    ensures Image(a, w, h) == Image(b, w, h) <==> forall px, py :: 0 <= px < w && 0 <= py < h ==> a(px, py) == b(px, py)
  {
    if Image(a, w, h) == Image(b, w, h) {
      forall px, py | 0 <= px < w && 0 <= py < h ensures a(px, py) == b(px, py) {
        SameChannels(a, b, w, h, px, py);
      }
    }
    if forall px, py :: 0 <= px < w && 0 <= py < h ==> a(px, py) == b(px, py) {
      SameImage(a, b, w, h);
    }
  }

  lemma SameChannels(a: Paint, b: Paint, w: nat, h: nat, px: nat, py: nat)
    requires px < w && py < h && Image(a, w, h) == Image(b, w, h)
    ensures a(px, py) == b(px, py)
  {
    forall c: nat | c < 4 ensures Channel(a(px, py), c) == Channel(b(px, py), c) {
      ImageAt(a, w, h, px, py, c);
      ImageAt(b, w, h, px, py, c);
    }
    SameColours(a(px, py), b(px, py));
  }

  lemma SameColours(a: Bgra, b: Bgra)
    requires forall c: nat :: c < 4 ==> Channel(a, c) == Channel(b, c)
    ensures a == b
  {
    assert Channel(a, 0) == Channel(b, 0) && Channel(a, 1) == Channel(b, 1);
    assert Channel(a, 2) == Channel(b, 2) && Channel(a, 3) == Channel(b, 3);
  }

  lemma {:induction false} SameImage(a: Paint, b: Paint, w: nat, h: nat)
    requires forall px, py :: 0 <= px < w && 0 <= py < h ==> a(px, py) == b(px, py)
    ensures Image(a, w, h) == Image(b, w, h)
  {
    if h > 0 {
      SameImage(a, b, w, h - 1);
      assert Row(a, w, h - 1) == Row(b, w, h - 1);
    }
  }

  // A pixel that the rule for flat edges makes transparent.
  predicate LosesPixel(q: Quad, g: Gradient, px: int, py: int) {
    && Covered(q, px as real, RowCentre(py)) && ThinRow(q, RowCentre(py))
    && MixAll(g, Position(g, px, RowCentre(py))) != CLEAR
  }

  // The buffer ends as the intended picture if and only if no covered pixel of it, of a colour
  // other than transparent, lies on a row that passes a flat edge.
  lemma PlainImageIff(q: Quad, g: Gradient, w: nat, h: nat)
    ensures Image(PaintOf(q, g), w, h) == Image(PlainPaint(q, g), w, h)
            <==> forall px, py :: 0 <= px < w && 0 <= py < h ==> !LosesPixel(q, g, px, py)
  {
    var a, b := PaintOf(q, g), PlainPaint(q, g);
    ImagesAgreeIff(a, b, w, h);
    forall px, py ensures a(px, py) == b(px, py) <==> !LosesPixel(q, g, px, py) {
      assert a(px, py) == Pixel(q, g, px, py) && b(px, py) == PlainPixel(q, g, px, py);
    }
  }

  // No edge has a height strictly between zero and EPS.
  predicate NoFlatEdge(q: Quad) {
    forall i :: 0 <= i < 4 ==> !FlatEdge(q, i)
  }

  predicate FlatEdge(q: Quad, i: nat)
    requires i < 4
  {
    0.0 < High(q, i).y - Low(q, i).y < EPS
  }

  // Without a flat edge every buffer ends as the intended picture, whatever the colours.
  lemma PlainWithoutFlatEdges(q: Quad, g: Gradient, w: nat, h: nat)
    requires NoFlatEdge(q)
    ensures Image(PaintOf(q, g), w, h) == Image(PlainPaint(q, g), w, h)
  {
    assert !FlatEdge(q, 0) && !FlatEdge(q, 1) && !FlatEdge(q, 2) && !FlatEdge(q, 3);
    PlainImageIff(q, g, w, h);
  }

  // Where the rule matters: a quad whose upper edge rises by half of EPS around a row's centre is
  // convex and covers pixels of that row, and the whole row stays transparent.
  lemma ThinEdgeLosesRow(g: Gradient)
    requires g.startColour == g.endColour == Bgra(255, 255, 255, 255)
    ensures var q := Quad(Point(0.0, 0.5 - EPS / 4.0), Point(10.0, 0.5 + EPS / 4.0), Point(10.0, 2.0), Point(0.0, 2.0));
            && !DiagonalsApart(q)
            && PlainPixel(q, g, 1, 0) == Bgra(255, 255, 255, 255)
            && forall px :: Pixel(q, g, px, 0) == CLEAR
  {
    var q := Quad(Point(0.0, 0.5 - EPS / 4.0), Point(10.0, 0.5 + EPS / 4.0), Point(10.0, 2.0), Point(0.0, 2.0));
    assert CrossX(q, 3, 0.5) == 0.0;
    assert CrossX(q, 0, 0.5) == 5.0;
    SameColour(Clamp01(Position(g, 1, 0.5)));
  }

  lemma SameColour(t: real)
    requires 0.0 <= t <= 1.0
    ensures Mix(255, 255, t) == 255
  {
    assert 255.0 * (1.0 - t) + 255.0 * t == 255.0;
  }
}
