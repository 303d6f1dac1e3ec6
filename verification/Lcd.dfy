/**
 The rasteriser of the 128 by 32 pixel display (C12832/C12832.cpp): pixels in a buffer of 512 bytes, lines and
 circles by integer error accumulators.
 */
module Lcd {
  import opened Core

  const WIDTH := 128
  const HEIGHT := 32

  datatype Point = Point(x: int, y: int)

  datatype DrawMode = Normal | Xor

  predicate Visible(p: Point) { 0 <= p.x < WIDTH && 0 <= p.y < HEIGHT }

  // ---------- what a pixel call changes ----------

  /** The pixel that a call of pixel for p changes. Its bounds test lets x = 128 and y = 32 pass: in column 128
      the byte of the row of bytes below is hit, in its last eight rows and in row 32 no byte of the buffer. */
  function Hit(p: Point): Option<Point> {
    if Visible(p) then Some(p)
    else if p.x == WIDTH && 0 <= p.y < HEIGHT - 8 then Some(Point(0, p.y + 8))
    else None
  }

  /** A write beyond the buffer. */
  predicate Overruns(p: Point) {
    0 <= p.x <= WIDTH && 0 <= p.y <= HEIGHT && Hit(p).None?
  }

  /** The set of lit pixels after one is drawn. */
  function Paint(lit: set<Point>, p: Point, color: int, mode: DrawMode): set<Point> {
    if Hit(p).None? then lit
    else
      var q := Hit(p).value;
      match mode
      case Normal => if color == 0 then lit - {q} else lit + {q}
      case Xor => if color != 1 then lit else if q in lit then lit - {q} else lit + {q}
  }

  function PaintAll(lit: set<Point>, points: seq<Point>, color: int, mode: DrawMode): set<Point>
    decreases |points|
  {
    if points == [] then lit
    else Paint(PaintAll(lit, points[..|points| - 1], color, mode), points[|points| - 1], color, mode)
  }

  lemma PaintOne(lit: set<Point>, points: seq<Point>, p: Point, color: int, mode: DrawMode)
    ensures PaintAll(lit, points + [p], color, mode) == Paint(PaintAll(lit, points, color, mode), p, color, mode)
  {
    assert (points + [p])[..|points|] == points;
  }

  lemma {:induction false} PaintAppend(lit: set<Point>, a: seq<Point>, b: seq<Point>, color: int, mode: DrawMode)
    ensures PaintAll(lit, a + b, color, mode) == PaintAll(PaintAll(lit, a, color, mode), b, color, mode)
    decreases |b|
  {
    hide Paint;
    if b == [] {
      assert a + b == a;
    } else {
      var c := b[..|b| - 1];
      PaintAppend(lit, a, c, color, mode);
      assert (a + b)[..|a + b| - 1] == a + c;
    }
  }

  /** Drawing with a color in normal mode lights just the pixels that are hit, in whatever order. */
  lemma {:induction false} DrawnIsLit(lit: set<Point>, points: seq<Point>, color: int)
    requires color != 0
    ensures PaintAll(lit, points, color, Normal) == lit + set p | p in points && Hit(p).Some? :: Hit(p).value
    decreases |points|
  {
    hide Hit;
    if points != [] {
      var rest := points[..|points| - 1];
      DrawnIsLit(lit, rest, color);
      var last := points[|points| - 1];
      assert forall p :: p in points <==> p in rest || p == last by {
        assert points == rest + [last];
      }
    }
  }

  /** It adds just the visible points to those that were lit, whichever these were, if and only if each point of
      the drawing in column 128, but for the last eight rows, hits a pixel that is drawn anyway. */
  lemma DrawnIsShown(points: seq<Point>, color: int)
    requires color != 0
    ensures (forall lit: set<Point> ::
               PaintAll(lit, points, color, Normal) == lit + set p | p in points && Visible(p))
       <==> forall p | p in points && p.x == WIDTH && 0 <= p.y < HEIGHT - 8 :: Point(0, p.y + 8) in points
  {
    var hits := set p | p in points && Hit(p).Some? :: Hit(p).value;
    var shown := set p | p in points && Visible(p);
    forall lit: set<Point>
      ensures PaintAll(lit, points, color, Normal) == lit + hits
    {
      DrawnIsLit(lit, points, color);
    }
    HitsAreShown(points);
    if forall p | p in points && p.x == WIDTH && 0 <= p.y < HEIGHT - 8 :: Point(0, p.y + 8) in points {
      assert hits == shown;
      assert forall lit: set<Point> :: lit + hits == lit + shown;
    } else {
      var none: set<Point> := {};
      assert PaintAll(none, points, color, Normal) == hits;
      assert none + shown == shown;
    }
  }

  /** Only a point in column 128 hits a pixel that is not its own. */
  lemma HitsAreShown(points: seq<Point>)
    ensures (set p | p in points && Hit(p).Some? :: Hit(p).value) == (set p | p in points && Visible(p))
       <==> forall p | p in points && p.x == WIDTH && 0 <= p.y < HEIGHT - 8 :: Point(0, p.y + 8) in points
  {
    var hits := set p | p in points && Hit(p).Some? :: Hit(p).value;
    var shown := set p | p in points && Visible(p);
    assert shown <= hits by {
      assert forall p | p in shown :: Hit(p) == Some(p);
    }
    if p :| p in points && p.x == WIDTH && 0 <= p.y < HEIGHT - 8 && Point(0, p.y + 8) !in points {
      assert Hit(p).value in hits && Point(0, p.y + 8) !in shown;
    } else {
      forall h | h in hits ensures h in shown {
        var p :| p in points && Hit(p) == Some(h);
      }
    }
  }

  /** The pixel test keeps every point on the display to itself, and the others off it, exactly outside column 128
      and row 32. */
  lemma PixelIsExact(p: Point)
    ensures (Hit(p) == if Visible(p) then Some(p) else None) && !Overruns(p) <==>
            !(p.x == WIDTH && 0 <= p.y <= HEIGHT) && !(p.y == HEIGHT && 0 <= p.x <= WIDTH)
  {
  }

  // ---------- bits ----------

  function Mask(k: nat): bv8
    requires k < 8
  {
    if k == 0 then 1 else if k == 1 then 2 else if k == 2 then 4 else if k == 3 then 8
    else if k == 4 then 16 else if k == 5 then 32 else if k == 6 then 64 else 128
  }

  predicate Bit(b: bv8, k: nat)
    requires k < 8
  {
    b & Mask(k) != 0
  }

  lemma MasksAreBits(b: bv8, k: nat)
    requires k < 8
    ensures Mask(k) != 0 && (b & Mask(k) == 0 || b & Mask(k) == Mask(k))
  {
    if k == 0 {
    } else if k == 1 {
    } else if k == 2 {
    } else if k == 3 {
    } else if k == 4 {
    } else if k == 5 {
    } else if k == 6 {
    }
  }

  /** 1 << k */
  function Shifted(k: nat): bv8
    requires k < 8
  {
    (1 as bv8) << k
  }

  lemma MaskIsShift(k: nat)
    requires k < 8
    ensures Mask(k) == Shifted(k)
  {
    if k == 0 {
    } else if k == 1 {
    } else if k == 2 {
    } else if k == 3 {
    } else if k == 4 {
    } else if k == 5 {
    } else if k == 6 {
    }
  }

  lemma MasksDiffer(k: nat, j: nat)
    requires k < 8 && j < 8 && k != j
    ensures Mask(k) & Mask(j) == 0
  {
  }

  lemma MaskOps(b: bv8, m: bv8, n: bv8)
    ensures m & n == 0 ==> (b | m) & n == b & n && (b & !m) & n == b & n && (b ^ m) & n == b & n
    ensures (b | m) & m == m && (b & !m) & m == 0
    ensures b & m == 0 ==> (b ^ m) & m == m
    ensures b & m == m ==> (b ^ m) & m == 0
  {
  }

  /** What pixel makes of one bit. */
  function Drawn1(bit: bool, color: int, mode: DrawMode): bool {
    match mode
    case Normal => color != 0
    case Xor => if color == 1 then !bit else bit
  }

  function WithBit(b: bv8, k: nat): bv8
    requires k < 8
  {
    b | Mask(k)
  }

  function WithoutBit(b: bv8, k: nat): bv8
    requires k < 8
  {
    b & !Mask(k)
  }

  function WithBitFlipped(b: bv8, k: nat): bv8
    requires k < 8
  {
    b ^ Mask(k)
  }

  /** What pixel makes of one byte. */
  function Drawn8(b: bv8, k: nat, color: int, mode: DrawMode): bv8
    requires k < 8
  {
    match mode
    case Normal => if color == 0 then WithoutBit(b, k) else WithBit(b, k)
    case Xor => if color == 1 then WithBitFlipped(b, k) else b
  }

  /** The byte with the bit set or cleared, or, in the other mode and with color 1, flipped. */
  function Written(b: bv8, bit: bv8, color: int, mode: DrawMode): bv8 {
    if mode.Normal? then if color != 0 then b | bit else b & !bit
    else if color == 1 then b ^ bit
    else b
  }

  lemma WrittenIs(b: bv8, k: nat, color: int, mode: DrawMode)
    requires k < 8
    ensures Drawn8(b, k, color, mode) == Written(b, Shifted(k), color, mode)
  {
    hide Drawn8, Written, Shifted, Mask;
    MaskIsShift(k);
    WrittenWith(b, k, color, mode);
  }

  lemma WrittenWith(b: bv8, k: nat, color: int, mode: DrawMode)
    requires k < 8
    ensures Drawn8(b, k, color, mode) == Written(b, Mask(k), color, mode)
  {
    hide Mask;
  }

  lemma ThatBit(b: bv8, k: nat, color: int, mode: DrawMode)
    requires k < 8
    ensures Bit(Drawn8(b, k, color, mode), k) == Drawn1(Bit(b, k), color, mode)
  {
    hide Mask;
    MasksAreBits(b, k);
    MaskOps(b, Mask(k), Mask(k));
  }

  lemma OtherBit(b: bv8, k: nat, j: nat, color: int, mode: DrawMode)
    requires k < 8 && j < 8 && k != j
    ensures Bit(Drawn8(b, k, color, mode), j) == Bit(b, j)
  {
    hide Mask;
    MasksDiffer(k, j);
    MaskOps(b, Mask(k), Mask(j));
  }

  lemma OneBitChanges(b: bv8, k: nat, j: nat, color: int, mode: DrawMode)
    requires k < 8 && j < 8
    ensures Bit(Drawn8(b, k, color, mode), j) == if j == k then Drawn1(Bit(b, k), color, mode) else Bit(b, j)
  {
    hide Bit, Mask, Drawn1, Drawn8;
    if j == k {
      ThatBit(b, k, color, mode);
    } else {
      OtherBit(b, k, j, color, mode);
    }
  }

  // ---------- lines ----------

  function Abs(v: int): nat { if v < 0 then -v else v }

  function Towards(from: int, to: int, n: nat): int { if to > from then from + n else from - n }

  /** The steps on the shorter axis that are nearest to the ideal line after k steps on the longer one; a tie
      goes up. */
  function Minor(k: nat, major: nat, minor: nat): nat {
    if major == 0 then 0 else (2 * minor * k + major) / (2 * major)
  }

  function Longer(a: nat, b: nat): nat { if a >= b then a else b }

  /** Point k of a line. */
  function LinePoint(p: Point, q: Point, k: nat): Point {
    var dx, dy := Abs(q.x - p.x), Abs(q.y - p.y);
    if dx >= dy then Point(Towards(p.x, q.x, k), Towards(p.y, q.y, Minor(k, dx, dy)))
    else Point(Towards(p.x, q.x, Minor(k, dy, dx)), Towards(p.y, q.y, k))
  }

  /** The first n points of a line. */
  function LineStart(p: Point, q: Point, n: nat): (s: seq<Point>)
    ensures |s| == n && forall k | 0 <= k < n :: s[k] == LinePoint(p, q, k)
  {
    seq(n, k requires 0 <= k < n => LinePoint(p, q, k))
  }

  /** The points of a line, in the order they are drawn. */
  function LinePoints(p: Point, q: Point): seq<Point> {
    LineStart(p, q, Longer(Abs(q.x - p.x), Abs(q.y - p.y)) + 1)
  }

  /** j is the number of steps on the shorter axis exactly if the accumulator is in its range. */
  lemma MinorIs(k: nat, major: nat, minor: nat, j: nat)
    requires major > 0 && 0 <= 2 * minor * k + major - 2 * major * j < 2 * major
    ensures Minor(k, major, minor) == j
  {
    var a, b := 2 * minor * k + major, 2 * major;
    var c := a - b * j;
    assert a == b * j + c && 0 <= c < b;
    assert a / b == j by { DivisionIs(a, b, j, c); }
  }

  lemma AtLeastOnce(b: nat, n: nat)
    requires n >= 1
    ensures b * n >= b
  {
    assert b * n == b * (n - 1) + b;
  }

  lemma QuotientsAgree(b: nat, d: nat, m: nat, q: nat, r: nat)
    requires m < b && r < b && b * d + m == b * q + r
    ensures d == q
  {
    if d < q {
      assert b * (q - d) == b * q - b * d;
      AtLeastOnce(b, q - d);
    } else if d > q {
      assert b * (d - q) == b * d - b * q;
      AtLeastOnce(b, d - q);
    }
  }

  lemma DivisionIs(a: nat, b: nat, q: nat, r: nat)
    requires a == b * q + r && r < b
    ensures a / b == q
  {
    QuotientsAgree(b, a / b, a % b, q, r);
  }

  lemma MinorBound(k: nat, major: nat, minor: nat)
    requires major > 0
    ensures var j := Minor(k, major, minor); 0 <= 2 * minor * k + major - 2 * major * j < 2 * major
  {
    var a, b := 2 * minor * k + major, 2 * major;
    assert a == b * (a / b) + a % b;
  }

  lemma MinorEnds(major: nat, minor: nat)
    ensures Minor(0, major, minor) == 0
    ensures minor <= major ==> Minor(major, major, minor) == minor
  {
    if major > 0 {
      MinorIs(0, major, minor, 0);
      assert 2 * minor * major == 2 * major * minor;
      MinorIs(major, major, minor, minor);
    }
  }

  lemma MinorStep(k: nat, major: nat, minor: nat)
    requires minor <= major
    ensures Minor(k, major, minor) <= Minor(k + 1, major, minor) <= Minor(k, major, minor) + 1
  {
    if major > 0 {
      MinorBound(k, major, minor);
      var j := Minor(k, major, minor);
      var c := 2 * minor * k + major - 2 * major * j;
      assert 2 * minor * (k + 1) == 2 * minor * k + 2 * minor;
      assert 2 * major * (j + 1) == 2 * major * j + 2 * major;
      if c + 2 * minor < 2 * major {
        MinorIs(k + 1, major, minor, j);
      } else {
        MinorIs(k + 1, major, minor, j + 1);
      }
    }
  }

  lemma LineEnds(p: Point, q: Point)
    ensures var s := LinePoints(p, q); s[0] == p && s[|s| - 1] == q
  {
    hide Minor;
    MinorEnds(Abs(q.x - p.x), Abs(q.y - p.y));
    MinorEnds(Abs(q.y - p.y), Abs(q.x - p.x));
  }

  lemma LineGoesOn(p: Point, q: Point, k: nat)
    ensures var a, b := LinePoint(p, q, k), LinePoint(p, q, k + 1); Abs(b.x - a.x) <= 1 && Abs(b.y - a.y) <= 1
  {
    hide Minor;
    var dx, dy := Abs(q.x - p.x), Abs(q.y - p.y);
    if dx >= dy { MinorStep(k, dx, dy); } else { MinorStep(k, dy, dx); }
  }

  /** Within half a pixel of the ideal line, on the shorter axis. */
  predicate OnLine(p: Point, q: Point, k: nat, a: Point) {
    var dx, dy := Abs(q.x - p.x), Abs(q.y - p.y);
    if dx >= dy then Abs(a.x - p.x) == k && Abs(2 * (dy * k - dx * Abs(a.y - p.y))) <= dx
    else Abs(a.y - p.y) == k && Abs(2 * (dx * k - dy * Abs(a.x - p.x))) <= dy
  }

  lemma LineIsNear(p: Point, q: Point, k: nat)
    ensures OnLine(p, q, k, LinePoint(p, q, k))
  {
    hide Minor;
    var dx, dy := Abs(q.x - p.x), Abs(q.y - p.y);
    if dx >= dy { HalfPixel(k, dx, dy); } else { HalfPixel(k, dy, dx); }
  }

  /** A line has one point for each step on its longer axis, from the first end to the other; each point is a
      neighbour of the one before, and lies within half a pixel of the ideal line on the shorter axis. */
  lemma LineBound(p: Point, q: Point)
    ensures var s := LinePoints(p, q);
            && |s| == Longer(Abs(q.x - p.x), Abs(q.y - p.y)) + 1 && s[0] == p && s[|s| - 1] == q
            && (forall k | 0 <= k < |s| - 1 :: Abs(s[k + 1].x - s[k].x) <= 1 && Abs(s[k + 1].y - s[k].y) <= 1)
            && (forall k | 0 <= k < |s| :: OnLine(p, q, k, s[k]))
  {
    hide LinePoint, OnLine;
    var s := LinePoints(p, q);
    LineEnds(p, q);
    forall k | 0 <= k < |s| - 1
      ensures Abs(s[k + 1].x - s[k].x) <= 1 && Abs(s[k + 1].y - s[k].y) <= 1
    {
      LineGoesOn(p, q, k);
    }
    forall k | 0 <= k < |s|
      ensures OnLine(p, q, k, s[k])
    {
      LineIsNear(p, q, k);
    }
  }

  lemma {:induction false} MinorGrows(k: nat, n: nat, major: nat, minor: nat)
    requires k <= n && minor <= major
    ensures Minor(k, major, minor) <= Minor(n, major, minor)
    decreases n - k
  {
    hide Minor;
    if k < n {
      MinorStep(n - 1, major, minor);
      MinorGrows(k, n - 1, major, minor);
    }
  }

  predicate Between(v: int, a: int, b: int) { a <= v <= b || b <= v <= a }

  lemma LineInBox(p: Point, q: Point, k: nat)
    requires k <= Longer(Abs(q.x - p.x), Abs(q.y - p.y))
    ensures var a := LinePoint(p, q, k); Between(a.x, p.x, q.x) && Between(a.y, p.y, q.y)
  {
    hide Minor;
    var dx, dy := Abs(q.x - p.x), Abs(q.y - p.y);
    var major, minor := Longer(dx, dy), if dx >= dy then dy else dx;
    MinorEnds(major, minor);
    MinorGrows(0, k, major, minor);
    MinorGrows(k, major, major, minor);
  }

  /** A line is on the display, all of it, if and only if its ends are; and it writes nothing beyond the buffer unless
      an end is right of the display or below it. */
  lemma LineFits(p: Point, q: Point)
    ensures (forall a | a in LinePoints(p, q) :: Visible(a)) <==> Visible(p) && Visible(q)
    ensures p.x < WIDTH && q.x < WIDTH && p.y < HEIGHT && q.y < HEIGHT ==>
      forall a | a in LinePoints(p, q) :: !Overruns(a)
  {
    hide LinePoint;
    var s := LinePoints(p, q);
    LineEnds(p, q);
    assert s[0] in s && s[|s| - 1] in s;
    forall a | a in s ensures Between(a.x, p.x, q.x) && Between(a.y, p.y, q.y) {
      var k :| 0 <= k < |s| && s[k] == a;
      LineInBox(p, q, k);
    }
  }

  lemma Doubled(a: int, b: int)
    ensures 2 * a * b == 2 * (a * b)
  {
  }

  lemma HalfPixel(k: nat, major: nat, minor: nat)
    requires minor <= major
    ensures Abs(2 * (minor * k - major * Minor(k, major, minor))) <= major
  {
    hide Minor;
    if major > 0 {
      MinorBound(k, major, minor);
      Doubled(minor, k);
      Doubled(major, Minor(k, major, minor));
    } else {
      assert minor * k == 0;
    }
  }

  /** The accumulator of line after k steps, j of them with one on the shorter axis: it is in its range. */
  predicate Stepping(k: nat, major: nat, minor: nat, j: nat, di: int) {
    di == 2 * minor * (k + 1) - major - 2 * major * j && 2 * minor - 2 * major <= di < 2 * minor
  }

  lemma SteppingBegins(major: nat, minor: nat)
    ensures major > 0 && minor <= major ==> Stepping(0, major, minor, 0, minor * 2 - major)
  {
  }

  lemma SteppingIs(k: nat, major: nat, minor: nat, j: nat, di: int)
    requires major > 0 && Stepping(k, major, minor, j, di)
    ensures Minor(k, major, minor) == j
  {
    assert 2 * minor * (k + 1) == 2 * minor * k + 2 * minor;
    MinorIs(k, major, minor, j);
  }

  lemma SteppingGoesOn(k: nat, major: nat, minor: nat, j: nat, di: int)
    requires minor <= major && Stepping(k, major, minor, j, di)
    ensures if di < 0 then Stepping(k + 1, major, minor, j, di + minor * 2)
            else Stepping(k + 1, major, minor, j + 1, di + (minor * 2 - major * 2))
  {
    assert 2 * minor * (k + 2) == 2 * minor * (k + 1) + 2 * minor;
    assert 2 * major * (j + 1) == 2 * major * j + 2 * major;
  }

  lemma NextPoint(p: Point, q: Point, k: nat, lit: set<Point>, color: int, mode: DrawMode)
    ensures LineStart(p, q, k + 1) == LineStart(p, q, k) + [LinePoint(p, q, k)]
    ensures PaintAll(lit, LineStart(p, q, k + 1), color, mode)
         == Paint(PaintAll(lit, LineStart(p, q, k), color, mode), LinePoint(p, q, k), color, mode)
  {
    hide LinePoint, Paint;
    PaintOne(lit, LineStart(p, q, k), LinePoint(p, q, k), color, mode);
  }

  lemma NothingPainted(lit: set<Point>, color: int, mode: DrawMode)
    ensures PaintAll(lit, [], color, mode) == lit
  {
  }

  // ---------- circles ----------

  /** How far a point is outside the circle of radius r about the origin, in squares. */
  function Error(x: int, y: int, r: int): int { x * x + y * y - r * r }

  /** From (x, y) the next point of an octant is one to the right, and one down if that is the nearer one. */
  function NextY(x: int, y: int, r: int): (next: int)
    ensures y - 1 <= next <= y
  {
    if Error(x + 1, y, r) + Error(x + 1, y - 1, r) < 0 then y else y - 1
  }

  /** What the accumulator of circle is at the head of its loop: the errors of the two candidates together. */
  function Accumulator(x: int, y: int, r: int): int { Error(x + 1, y, r) + Error(x + 1, y - 1, r) }

  lemma AccumulatorIs(x: int, y: int, r: int)
    ensures Accumulator(x, y, r) == 2 * ((x + 1) * (x + 1)) + y * y + (y - 1) * (y - 1) - 2 * (r * r)
  {
  }

  lemma AccumulatorBegins(r: int)
    ensures Accumulator(0, r, r) == 3 - 2 * r
  {
    Squares(r);
  }

  lemma AccumulatorGoesOn(x: int, y: int, r: int)
    ensures var a := Accumulator(x, y, r);
            && NextY(x, y, r) == (if a < 0 then y else y - 1)
            && Accumulator(x + 1, NextY(x, y, r), r) == a + if a < 0 then 4 * x + 6 else 4 * (x - y) + 10
  {
    Squares(x + 1);
    Squares(y);
    Squares(y - 1);
  }

  /** The points of an octant behind (x, y), down to the diagonal. */
  function Octant(x: int, y: int, r: int): seq<Point>
    decreases y - x
  {
    if x >= y then []
    else [Point(x + 1, NextY(x, y, r))] + Octant(x + 1, NextY(x, y, r), r)
  }

  /** Of the two candidates the one with the smaller error is taken. */
  lemma NearerIsTaken(x: int, y: int, r: int)
    requires 0 <= x < y
    ensures var next := NextY(x, y, r);
            Abs(Error(x + 1, next, r)) <= Abs(Error(x + 1, y, r))
            && Abs(Error(x + 1, next, r)) <= Abs(Error(x + 1, y - 1, r))
  {
    Squares(y);
  }

  lemma Squares(y: int)
    ensures (y - 1) * (y - 1) == y * y - 2 * y + 1 && (y + 1) * (y + 1) == y * y + 2 * y + 1
    ensures y >= 1 ==> (y - 1) * (y - 1) < y * y
  {
  }

  /** The point is off the circle by at most y squares, and by less while the octant goes on. */
  predicate Near(x: int, y: int, r: int) {
    && 0 <= x && -y <= Error(x, y, r) <= y
    && (x < y ==> Error(x, y, r) <= y - 1)
  }

  lemma NearStep(x: int, y: int, r: int)
    requires x < y && Near(x, y, r)
    ensures Near(x + 1, NextY(x, y, r), r)
  {
    Squares(x);
    Squares(y);
  }

  /** Point i is i + 1 to the right of x, and near. */
  predicate AllNear(s: seq<Point>, x: int, r: int) {
    forall i | 0 <= i < |s| :: s[i].x == x + 1 + i && Abs(Error(s[i].x, s[i].y, r)) <= s[i].y
  }

  lemma {:induction false} OctantBound(x: int, y: int, r: int)
    requires Near(x, y, r)
    ensures AllNear(Octant(x, y, r), x, r)
    decreases y - x
  {
    hide Near, NextY, Error;
    if x < y {
      var next := NextY(x, y, r);
      NearStep(x, y, r);
      NearMeans(x + 1, next, r);
      OctantBound(x + 1, next, r);
      var s, rest := Octant(x, y, r), Octant(x + 1, next, r);
      assert s == [Point(x + 1, next)] + rest;
      forall i | 0 <= i < |s|
        ensures s[i].x == x + 1 + i && Abs(Error(s[i].x, s[i].y, r)) <= s[i].y
      {
        if i > 0 {
          var j := i - 1;
          assert s[i] == rest[j] && rest[j].x == x + 1 + 1 + j;
        }
      }
    }
  }

  lemma NearMeans(x: int, y: int, r: int)
    requires Near(x, y, r)
    ensures Abs(Error(x, y, r)) <= y
  {
  }

  /** Every point of the octant of a circle satisfies |x^2 + y^2 - r^2| <= y. */
  lemma CircleBound(r: int)
    requires r >= 2
    ensures forall p | p in Octant(0, r, r) :: Abs(p.x * p.x + p.y * p.y - r * r) <= p.y
  {
    OctantBound(0, r, r);
  }

  /** The eight reflections of a point of the octant about the centre, in the order they are drawn. */
  function Reflections(c: Point, x: int, y: int): seq<Point> {
    [Point(c.x + x, c.y + y), Point(c.x - x, c.y + y), Point(c.x + x, c.y - y), Point(c.x - x, c.y - y),
     Point(c.x + y, c.y + x), Point(c.x - y, c.y + x), Point(c.x + y, c.y - x), Point(c.x - y, c.y - x)]
  }

  function If(guard: bool, p: Point): seq<Point> { if guard then [p] else [] }

  /** Four calls of pixel, each behind a test. */
  function Four(t0: bool, p0: Point, t1: bool, p1: Point, t2: bool, p2: Point, t3: bool, p3: Point): seq<Point> {
    If(t0, p0) + If(t1, p1) + If(t2, p2) + If(t3, p3)
  }

  /** Four reflections are handed to pixel if they pass a test, one for each quarter of the circle. */
  function Tested(p0: Point, p1: Point, p2: Point, p3: Point): seq<Point> {
    Four(p0.x <= WIDTH && p0.y >= 0, p0, p1.x >= 0 && p1.y >= 0, p1,
         p2.x <= WIDTH && p2.y <= HEIGHT, p2, p3.x >= 0 && p3.y <= HEIGHT, p3)
  }

  /** Those of the reflections that are handed to pixel. */
  function Drawn(c: Point, x: int, y: int): seq<Point> {
    Tested(Point(c.x + x, c.y + y), Point(c.x - x, c.y + y), Point(c.x + x, c.y - y), Point(c.x - x, c.y - y))
    + Tested(Point(c.x + y, c.y + x), Point(c.x - y, c.y + x), Point(c.x + y, c.y - x), Point(c.x - y, c.y - x))
  }

  function DrawnFrom(c: Point, x: int, y: int, r: int): seq<Point>
    decreases y - x
  {
    if x >= y then [] else Drawn(c, x + 1, NextY(x, y, r)) + DrawnFrom(c, x + 1, NextY(x, y, r), r)
  }

  lemma DrawnOn(c: Point, x: int, y: int, r: int, done: seq<Point>)
    requires x < y
    ensures var next := NextY(x, y, r);
            done + DrawnFrom(c, x, y, r) == done + Drawn(c, x + 1, next) + DrawnFrom(c, x + 1, next, r)
  {
    hide NextY, Drawn;
    var next := NextY(x, y, r);
    assert DrawnFrom(c, x, y, r) == Drawn(c, x + 1, next) + DrawnFrom(c, x + 1, next, r);
  }

  function Poles(c: Point, r: int): seq<Point> {
    Four(c.y + r < HEIGHT, Point(c.x, c.y + r), c.y - r >= 0, Point(c.x, c.y - r),
         c.x + r < WIDTH, Point(c.x + r, c.y), c.x - r >= 0, Point(c.x - r, c.y))
  }

  /** The points of a circle, in the order they are drawn. */
  function CirclePoints(c: Point, r: int): seq<Point> {
    if r == 0 then [] else if r == 1 then Poles(c, r) else Poles(c, r) + DrawnFrom(c, 0, r, r)
  }

  lemma TestedKeeps(p0: Point, p1: Point, p2: Point, p3: Point, p: Point)
    ensures Visible(p) && (p == p0 || p == p1 || p == p2 || p == p3) ==> p in Tested(p0, p1, p2, p3)
    ensures p in Tested(p0, p1, p2, p3) ==> p == p0 || p == p1 || p == p2 || p == p3
  {
  }

  /** The tests drop no point that is on the display, and let no other point through than reflections. */
  lemma TestsKeepVisible(c: Point, x: int, y: int)
    ensures forall p | p in Reflections(c, x, y) && Visible(p) :: p in Drawn(c, x, y)
    ensures forall p | p in Drawn(c, x, y) :: p in Reflections(c, x, y)
  {
    hide Tested, Visible;
    forall p
      ensures p in Reflections(c, x, y) && Visible(p) ==> p in Drawn(c, x, y)
      ensures p in Drawn(c, x, y) ==> p in Reflections(c, x, y)
    {
      TestedKeeps(Point(c.x + x, c.y + y), Point(c.x - x, c.y + y),
                  Point(c.x + x, c.y - y), Point(c.x - x, c.y - y), p);
      TestedKeeps(Point(c.x + y, c.y + x), Point(c.x - y, c.y + x),
                  Point(c.x + y, c.y - x), Point(c.x - y, c.y - x), p);
    }
  }

  lemma {:induction false} CirclePointsAreNear(c: Point, x: int, y: int, r: int)
    requires Near(x, y, r)
    ensures forall p | p in DrawnFrom(c, x, y, r) ::
      exists k | 0 <= k < |Octant(x, y, r)| :: p in Reflections(c, Octant(x, y, r)[k].x, Octant(x, y, r)[k].y)
    ensures forall k, p | 0 <= k < |Octant(x, y, r)| && Visible(p)
                          && p in Reflections(c, Octant(x, y, r)[k].x, Octant(x, y, r)[k].y) ::
      p in DrawnFrom(c, x, y, r)
    decreases y - x
  {
    hide Near, NextY, Reflections, Drawn;
    if x < y {
      var next := NextY(x, y, r);
      NearStep(x, y, r);
      TestsKeepVisible(c, x + 1, next);
      CirclePointsAreNear(c, x + 1, next, r);
      var s, t := Octant(x, y, r), Octant(x + 1, next, r);
      assert forall k | 0 <= k < |t| :: s[k + 1] == t[k];
      assert s[0] == Point(x + 1, next);
    }
  }

  /** The byte of a point, and its bit. */
  function ByteOf(p: Point): (at: nat)
    requires Visible(p)
    ensures at < 512
  {
    p.x + p.y / 8 * 128
  }

  function BitOf(p: Point): (k: nat)
    requires Visible(p)
    ensures k < 8
  {
    p.y % 8
  }

  lemma CellIs(x: int, y: int, q: Point)
    requires 0 <= x <= 128 && 0 <= y <= 32 && x + y / 8 * 128 < 512
    requires var at := x + y / 8 * 128; q == Point(at % 128, at / 128 * 8 + y % 8)
    ensures Visible(q) && ByteOf(q) == x + y / 8 * 128 && BitOf(q) == y % 8
  {
  }

  /** No two points of the display share a bit of the buffer. */
  lemma CellsDiffer(p: Point, q: Point)
    requires Visible(p) && Visible(q) && p != q
    ensures ByteOf(p) != ByteOf(q) || BitOf(p) != BitOf(q)
  {
  }

  /** The four points of a circle that lie straight above, below, right and left of its centre. */
  function Compass(c: Point, r: int): set<Point> {
    {Point(c.x, c.y + r), Point(c.x, c.y - r), Point(c.x + r, c.y), Point(c.x - r, c.y)}
  }

  /** None of them is missing on the display, and the smallest circle has no other points. */
  lemma PolesAreDrawn(c: Point, r: int)
    requires r >= 1
    ensures forall p | p in Compass(c, r) && Visible(p) :: p in CirclePoints(c, r)
    ensures r == 1 ==> forall p | p in CirclePoints(c, r) :: p in Compass(c, r)
  {
    hide DrawnFrom, Visible;
    forall p | p in Compass(c, r) && Visible(p) ensures p in Poles(c, r) {
      PoleIsDrawn(c, r, p);
    }
  }

  lemma PoleIsDrawn(c: Point, r: int, p: Point)
    requires r >= 1 && p in Compass(c, r) && Visible(p)
    ensures p in Poles(c, r)
  {
  }

  /** Every point that circle draws satisfies |dx^2 + dy^2 - r^2| <= max(|dx|, |dy|), dx and dy being its distances
      from the centre; and of the four poles, and the eight reflections of every point of the octant, none is missing on
      the display. */
  lemma CircleIsRound(c: Point, r: int)
    requires r >= 2
    ensures forall p | p in CirclePoints(c, r) ::
      Abs(Error(p.x - c.x, p.y - c.y, r)) <= Longer(Abs(p.x - c.x), Abs(p.y - c.y))
    ensures forall k, p | 0 <= k < |Octant(0, r, r)| && Visible(p)
                          && p in Reflections(c, Octant(0, r, r)[k].x, Octant(0, r, r)[k].y) ::
      p in CirclePoints(c, r)
    ensures forall p | p in Compass(c, r) && Visible(p) :: p in CirclePoints(c, r)
  {
    hide Octant, DrawnFrom, Reflections, Compass;
    PolesAreDrawn(c, r);
    var s := Octant(0, r, r);
    OctantBound(0, r, r);
    CirclePointsAreNear(c, 0, r, r);
    forall p | p in CirclePoints(c, r)
      ensures Abs(Error(p.x - c.x, p.y - c.y, r)) <= Longer(Abs(p.x - c.x), Abs(p.y - c.y))
    {
      if p in DrawnFrom(c, 0, r, r) {
        var k :| 0 <= k < |s| && p in Reflections(c, s[k].x, s[k].y);
        ReflectedError(c, s[k].x, s[k].y, r, p);
      } else {
        PolesAreExact(c, r, p);
      }
    }
  }

  lemma {:induction false} OctantInside(x: int, y: int, r: int)
    requires 0 <= x <= y
    ensures forall p | p in Octant(x, y, r) :: 0 <= p.x <= y && 0 <= p.y <= y
    decreases y - x
  {
    if x < y {
      var next := NextY(x, y, r);
      if x + 1 <= next {
        OctantInside(x + 1, next, r);
      }
    }
  }

  /** No point of a circle is farther from its centre than r in either direction, so that a circle which ends left of
      column 128 and above row 32 writes nothing beyond the buffer, and one inside the display is all on it. */
  lemma CircleFits(c: Point, r: int)
    requires r >= 0
    ensures forall p | p in CirclePoints(c, r) :: Abs(p.x - c.x) <= r && Abs(p.y - c.y) <= r
    ensures c.x + r < WIDTH && c.y + r < HEIGHT ==> forall p | p in CirclePoints(c, r) :: !Overruns(p)
    ensures 0 <= c.x - r && c.x + r < WIDTH && 0 <= c.y - r && c.y + r < HEIGHT ==>
      forall p | p in CirclePoints(c, r) :: Visible(p)
  {
    hide Octant, DrawnFrom, Reflections, Poles;
    forall p | p in Poles(c, r) ensures Abs(p.x - c.x) <= r && Abs(p.y - c.y) <= r {
      PolesInside(c, r, p);
    }
    if r >= 2 {
      var s := Octant(0, r, r);
      OctantInside(0, r, r);
      assert Near(0, r, r);
      CirclePointsAreNear(c, 0, r, r);
      forall p | p in DrawnFrom(c, 0, r, r) ensures Abs(p.x - c.x) <= r && Abs(p.y - c.y) <= r {
        var k :| 0 <= k < |s| && p in Reflections(c, s[k].x, s[k].y);
        assert s[k] in s;
        ReflectedInside(c, s[k].x, s[k].y, r, p);
      }
    }
  }

  lemma PolesInside(c: Point, r: int, p: Point)
    requires p in Poles(c, r) && r >= 0
    ensures Abs(p.x - c.x) <= r && Abs(p.y - c.y) <= r
  {
  }

  lemma ReflectedInside(c: Point, x: int, y: int, r: int, p: Point)
    requires p in Reflections(c, x, y) && 0 <= x <= r && 0 <= y <= r
    ensures Abs(p.x - c.x) <= r && Abs(p.y - c.y) <= r
  {
    var s := Reflections(c, x, y);
    assert p == s[0] || p == s[1] || p == s[2] || p == s[3] || p == s[4] || p == s[5] || p == s[6] || p == s[7];
  }

  lemma Mirrored(a: int)
    ensures (-a) * (-a) == a * a
  {
  }

  lemma ReflectedError(c: Point, x: int, y: int, r: int, p: Point)
    requires p in Reflections(c, x, y)
    ensures Error(p.x - c.x, p.y - c.y, r) == Error(x, y, r)
    ensures y <= Longer(Abs(p.x - c.x), Abs(p.y - c.y))
  {
    Mirrored(x);
    Mirrored(y);
    var s := Reflections(c, x, y);
    assert p == s[0] || p == s[1] || p == s[2] || p == s[3] || p == s[4] || p == s[5] || p == s[6] || p == s[7];
  }

  lemma PolesAreExact(c: Point, r: int, p: Point)
    requires p in Poles(c, r)
    ensures Error(p.x - c.x, p.y - c.y, r) == 0
  {
    Mirrored(r);
  }

  // ---------- the code ----------

  class Display {
    const buffer: array<bv8>
    var drawMode: DrawMode
    // the points for which pixel was called, in their order
    ghost var plotted: seq<Point>

    constructor ()
      ensures buffer.Length == 512 && fresh(buffer) && plotted == []
    {
      buffer := new bv8[512](_ => 0);
      drawMode := Normal;
      plotted := [];
    }

    predicate Lit(p: Point)
      requires buffer.Length == 512 && Visible(p)
      reads buffer
    {
      Bit(buffer[ByteOf(p)], BitOf(p))
    }

    /** The pixels that are lit. */
    ghost function Picture(): set<Point>
      requires buffer.Length == 512
      reads buffer
    {
      set x, y | 0 <= x < WIDTH && 0 <= y < HEIGHT && Lit(Point(x, y)) :: Point(x, y)
    }

    lemma InPicture(p: Point)
      requires buffer.Length == 512
      ensures p in Picture() <==> Visible(p) && Lit(p)
    {
      if Visible(p) && Lit(p) {
        assert Point(p.x, p.y) in Picture();
      }
    }

    /** Changes one bit. */
    method Change(q: Point, color: int)
      requires buffer.Length == 512 && Visible(q)
      modifies buffer
      ensures forall p | Visible(p) :: Lit(p) == if p == q then Drawn1(old(Lit(q)), color, drawMode) else old(Lit(p))
      ensures forall k | 0 <= k < 512 && k != ByteOf(q) :: buffer[k] == old(buffer[k])
      ensures buffer[ByteOf(q)] == Written(old(buffer[ByteOf(q)]), Shifted(BitOf(q)), color, drawMode)
    {
      hide Bit, WithBit, WithoutBit, WithBitFlipped, Drawn1, ByteOf, BitOf, Written, Shifted;
      var at, k := ByteOf(q), BitOf(q);
      ghost var b := buffer[at];
      forall j | 0 <= j < 8
        ensures Bit(Drawn8(b, k, color, drawMode), j)
             == if j == k then Drawn1(Bit(b, k), color, drawMode) else Bit(b, j)
      {
        OneBitChanges(b, k, j, color, drawMode);
      }
      if drawMode.Normal? {
        if color == 0 {
          buffer[at] := WithoutBit(buffer[at], k);
        } else {
          buffer[at] := WithBit(buffer[at], k);
        }
      } else if color == 1 {
        buffer[at] := WithBitFlipped(buffer[at], k);
      }
      assert buffer[at] == Drawn8(b, k, color, drawMode);
      WrittenIs(b, k, color, drawMode);
      forall p | Visible(p)
        ensures Lit(p) == if p == q then Drawn1(old(Lit(q)), color, drawMode) else old(Lit(p))
      {
        if p != q {
          CellsDiffer(p, q);
        }
      }
    }

    /** Changes one bit, seen as a pixel of the picture and as a byte of the buffer. */
    method Mark(q: Point, color: int)
      requires buffer.Length == 512 && Visible(q)
      modifies buffer
      ensures Picture() == Paint(old(Picture()), q, color, drawMode)
      ensures forall k | 0 <= k < 512 && k != ByteOf(q) :: buffer[k] == old(buffer[k])
      ensures buffer[ByteOf(q)] == Written(old(buffer[ByteOf(q)]), Shifted(BitOf(q)), color, drawMode)
    {
      hide Bit, Written, Shifted;
      ghost var before := Picture();
      forall p ensures p in before <==> Visible(p) && Lit(p) { InPicture(p); }
      Change(q, color);
      forall p
        ensures p in Picture() <==> p in Paint(before, q, color, drawMode)
      {
        InPicture(p);
      }
    }

    /** A call of pixel for this point writes to the buffer, in the byte of its column and of its row of eight. */
    predicate Writes(x: int, y: int) { 0 <= x <= 128 && 0 <= y <= 32 && x + y / 8 * 128 < 512 }

    /** pixel: it sets, clears or flips the bit of the row in that byte, and touches no other. What it would write
        beyond the buffer is not part of this model. */
    method Pixel(x: int, y: int, color: int)
      requires buffer.Length == 512
      modifies buffer, this`plotted
      ensures plotted == old(plotted) + [Point(x, y)]
      ensures Picture() == Paint(old(Picture()), Point(x, y), color, drawMode)
      ensures forall k | 0 <= k < 512 && !(Writes(x, y) && k == x + y / 8 * 128) :: buffer[k] == old(buffer[k])
      ensures Writes(x, y) ==>
        buffer[x + y / 8 * 128] == Written(old(buffer[x + y / 8 * 128]), Shifted(y % 8), color, drawMode)
    {
      hide ByteOf, BitOf, Shifted, Written;
      plotted := plotted + [Point(x, y)];
      if x > 128 || y > 32 || x < 0 || y < 0 {
        return;
      }
      var at := x + y / 8 * 128;
      if at < 512 {
        var q := Point(at % 128, at / 128 * 8 + y % 8);
        assert Hit(Point(x, y)) == Some(q);
        CellIs(x, y, q);
        Mark(q, color);
      }
    }

    /** line */
    method Line(x0: int, y0: int, x1: int, y1: int, color: int)
      requires buffer.Length == 512
      modifies buffer, this`plotted
      ensures var s := LinePoints(Point(x0, y0), Point(x1, y1));
              plotted == old(plotted) + s && Picture() == PaintAll(old(Picture()), s, color, drawMode)
    {
      var dx, dy := x1 - x0, y1 - y0;
      var dxSym := if dx > 0 then 1 else -1;
      var dySym := if dy > 0 then 1 else -1;
      dx, dy := dxSym * dx, dySym * dy;
      if dx >= dy {
        LineAcross(x0, y0, x1, y1, color, dx, dy, dxSym, dySym);
      } else {
        LineDown(x0, y0, x1, y1, color, dx, dy, dxSym, dySym);
      }
    }

    /** The loop of line over x. */
    method LineAcross(x0: int, y0: int, x1: int, y1: int, color: int, dx: nat, dy: nat, dxSym: int, dySym: int)
      requires buffer.Length == 512 && dx == Abs(x1 - x0) && dy == Abs(y1 - y0) && dx >= dy
      requires dxSym == (if x1 > x0 then 1 else -1) && dySym == if y1 > y0 then 1 else -1
      modifies buffer, this`plotted
      ensures var s := LinePoints(Point(x0, y0), Point(x1, y1));
              plotted == old(plotted) + s && Picture() == PaintAll(old(Picture()), s, color, drawMode)
    {
      hide Paint, PaintAll, Stepping, Minor, Hit;
      ghost var p, q := Point(x0, y0), Point(x1, y1);
      ghost var lit := Picture();
      var x, y := x0, y0;
      var di := dy * 2 - dx;
      ghost var k, j := 0, 0;
      NothingPainted(lit, color, drawMode);
      SteppingBegins(dx, dy);
      while x != x1
        invariant 0 <= k <= dx && x == Towards(x0, x1, k) && y == Towards(y0, y1, j)
        invariant if dx == 0 then j == 0 else Stepping(k, dx, dy, j, di)
        invariant plotted == old(plotted) + LineStart(p, q, k)
        invariant Picture() == PaintAll(lit, LineStart(p, q, k), color, drawMode)
        decreases dx - k
      {
        SteppingIs(k, dx, dy, j, di);
        NextPoint(p, q, k, lit, color, drawMode);
        Pixel(x, y, color);
        SteppingGoesOn(k, dx, dy, j, di);
        x := x + dxSym;
        if di < 0 {
          di := di + dy * 2;
        } else {
          di := di + (dy * 2 - dx * 2);
          y := y + dySym;
          j := j + 1;
        }
        k := k + 1;
      }
      if dx == 0 {
        MinorEnds(0, dy);
      } else {
        SteppingIs(k, dx, dy, j, di);
      }
      NextPoint(p, q, k, lit, color, drawMode);
      Pixel(x, y, color);
    }

    /** The loop of line over y. */
    method LineDown(x0: int, y0: int, x1: int, y1: int, color: int, dx: nat, dy: nat, dxSym: int, dySym: int)
      requires buffer.Length == 512 && dx == Abs(x1 - x0) && dy == Abs(y1 - y0) && dx < dy
      requires dxSym == (if x1 > x0 then 1 else -1) && dySym == if y1 > y0 then 1 else -1
      modifies buffer, this`plotted
      ensures var s := LinePoints(Point(x0, y0), Point(x1, y1));
              plotted == old(plotted) + s && Picture() == PaintAll(old(Picture()), s, color, drawMode)
    {
      hide Paint, PaintAll, Stepping, Minor, Hit;
      ghost var p, q := Point(x0, y0), Point(x1, y1);
      ghost var lit := Picture();
      var x, y := x0, y0;
      var di := dx * 2 - dy;
      ghost var k, j := 0, 0;
      NothingPainted(lit, color, drawMode);
      SteppingBegins(dy, dx);
      while y != y1
        invariant 0 <= k <= dy && y == Towards(y0, y1, k) && x == Towards(x0, x1, j)
        invariant Stepping(k, dy, dx, j, di)
        invariant plotted == old(plotted) + LineStart(p, q, k)
        invariant Picture() == PaintAll(lit, LineStart(p, q, k), color, drawMode)
        decreases dy - k
      {
        SteppingIs(k, dy, dx, j, di);
        NextPoint(p, q, k, lit, color, drawMode);
        Pixel(x, y, color);
        SteppingGoesOn(k, dy, dx, j, di);
        y := y + dySym;
        if di < 0 {
          di := di + dx * 2;
        } else {
          di := di + (dx * 2 - dy * 2);
          x := x + dxSym;
          j := j + 1;
        }
        k := k + 1;
      }
      SteppingIs(k, dy, dx, j, di);
      NextPoint(p, q, k, lit, color, drawMode);
      Pixel(x, y, color);
    }

    /** A call of pixel behind a test. */
    method PixelIf(test: bool, p: Point, color: int)
      requires buffer.Length == 512
      modifies buffer, this`plotted
      ensures plotted == old(plotted) + If(test, p)
      ensures Picture() == PaintAll(old(Picture()), If(test, p), color, drawMode)
    {
      ghost var lit := Picture();
      NothingPainted(lit, color, drawMode);
      PaintOne(lit, [], p, color, drawMode);
      assert [] + [p] == [p];
      if test {
        Pixel(p.x, p.y, color);
      }
    }

    method DrawFour(t0: bool, p0: Point, t1: bool, p1: Point, t2: bool, p2: Point, t3: bool, p3: Point, color: int)
      requires buffer.Length == 512
      modifies buffer, this`plotted
      ensures plotted == old(plotted) + Four(t0, p0, t1, p1, t2, p2, t3, p3)
      ensures Picture() == PaintAll(old(Picture()), Four(t0, p0, t1, p1, t2, p2, t3, p3), color, drawMode)
    {
      hide PaintAll, If;
      ghost var lit := Picture();
      ghost var a, b, c, d := If(t0, p0), If(t1, p1), If(t2, p2), If(t3, p3);
      PixelIf(t0, p0, color);
      PixelIf(t1, p1, color);
      PaintAppend(lit, a, b, color, drawMode);
      PixelIf(t2, p2, color);
      PaintAppend(lit, a + b, c, color, drawMode);
      PixelIf(t3, p3, color);
      PaintAppend(lit, a + b + c, d, color, drawMode);
    }

    /** Four of the eight calls of pixel in the loop of circle. */
    method DrawTested(p0: Point, p1: Point, p2: Point, p3: Point, color: int)
      requires buffer.Length == 512
      modifies buffer, this`plotted
      ensures plotted == old(plotted) + Tested(p0, p1, p2, p3)
      ensures Picture() == PaintAll(old(Picture()), Tested(p0, p1, p2, p3), color, drawMode)
    {
      hide PaintAll, Four;
      DrawFour(p0.x <= WIDTH && p0.y >= 0, p0, p1.x >= 0 && p1.y >= 0, p1,
               p2.x <= WIDTH && p2.y <= HEIGHT, p2, p3.x >= 0 && p3.y <= HEIGHT, p3, color);
    }

    /** The eight calls of pixel in the loop of circle, after others that drew `done`. */
    method DrawEight(p0: Point, p1: Point, p2: Point, p3: Point, p4: Point, p5: Point, p6: Point, p7: Point, color: int,
                     ghost before: seq<Point>, ghost lit: set<Point>, ghost done: seq<Point>)
      returns (ghost after: seq<Point>)
      requires buffer.Length == 512
      requires plotted == before + done && Picture() == PaintAll(lit, done, color, drawMode)
      modifies buffer, this`plotted
      ensures after == done + (Tested(p0, p1, p2, p3) + Tested(p4, p5, p6, p7))
      ensures plotted == before + after && Picture() == PaintAll(lit, after, color, drawMode)
    {
      hide PaintAll, Tested;
      ghost var front, back := Tested(p0, p1, p2, p3), Tested(p4, p5, p6, p7);
      DrawTested(p0, p1, p2, p3, color);
      PaintAppend(lit, done, front, color, drawMode);
      DrawTested(p4, p5, p6, p7, color);
      PaintAppend(lit, done + front, back, color, drawMode);
      after := done + (front + back);
      assert after == done + front + back;
      assert before + after == before + done + front + back;
    }

    /** circle */
    method Circle(x0: int, y0: int, r: int, color: int)
      requires buffer.Length == 512
      modifies buffer, this`plotted
      ensures var s := CirclePoints(Point(x0, y0), r);
              plotted == old(plotted) + s && Picture() == PaintAll(old(Picture()), s, color, drawMode)
    {
      hide PaintAll, Four, DrawnFrom;
      ghost var c, lit := Point(x0, y0), Picture();
      NothingPainted(lit, color, drawMode);
      if r == 0 {
        return;
      }
      DrawFour(y0 + r < HEIGHT, Point(x0, y0 + r), y0 - r >= 0, Point(x0, y0 - r),
               x0 + r < WIDTH, Point(x0 + r, y0), x0 - r >= 0, Point(x0 - r, y0), color);
      if r == 1 {
        return;
      }
      CircleLoop(x0, y0, r, color);
      PaintAppend(lit, Poles(c, r), DrawnFrom(c, 0, r, r), color, drawMode);
    }

    /** The loop of circle. */
    method CircleLoop(x0: int, y0: int, r: int, color: int)
      requires buffer.Length == 512
      modifies buffer, this`plotted
      ensures var s := DrawnFrom(Point(x0, y0), 0, r, r);
              plotted == old(plotted) + s && Picture() == PaintAll(old(Picture()), s, color, drawMode)
    {
      hide Paint, PaintAll, Tested, NextY, Error, Accumulator, DrawnFrom;
      ghost var c, lit := Point(x0, y0), Picture();
      NothingPainted(lit, color, drawMode);
      var draw0, draw1 := Point(x0, y0 + r), Point(x0, y0 + r);
      var draw2, draw3 := Point(x0, y0 - r), Point(x0, y0 - r);
      var draw4, draw6 := Point(x0 + r, y0), Point(x0 + r, y0);
      var draw5, draw7 := Point(x0 - r, y0), Point(x0 - r, y0);
      var di, xx, yy := 3 - 2 * r, 0, r;
      ghost var done: seq<Point> := [];
      AccumulatorBegins(r);
      while xx < yy
        invariant draw0 == Point(x0 + xx, y0 + yy) && draw1 == Point(x0 - xx, y0 + yy)
        invariant draw2 == Point(x0 + xx, y0 - yy) && draw3 == Point(x0 - xx, y0 - yy)
        invariant draw4 == Point(x0 + yy, y0 + xx) && draw5 == Point(x0 - yy, y0 + xx)
        invariant draw6 == Point(x0 + yy, y0 - xx) && draw7 == Point(x0 - yy, y0 - xx)
        invariant di == Accumulator(xx, yy, r)
        invariant DrawnFrom(c, 0, r, r) == done + DrawnFrom(c, xx, yy, r)
        invariant plotted == old(plotted) + done && Picture() == PaintAll(lit, done, color, drawMode)
        decreases yy - xx
      {
        ghost var y := yy;
        AccumulatorGoesOn(xx, yy, r);
        if di < 0 {
          di := di + (4 * xx + 6);
        } else {
          di := di + (4 * (xx - yy) + 10);
          yy := yy - 1;
          draw0, draw1 := Point(draw0.x, draw0.y - 1), Point(draw1.x, draw1.y - 1);
          draw2, draw3 := Point(draw2.x, draw2.y + 1), Point(draw3.x, draw3.y + 1);
          draw4, draw5 := Point(draw4.x - 1, draw4.y), Point(draw5.x + 1, draw5.y);
          draw6, draw7 := Point(draw6.x - 1, draw6.y), Point(draw7.x + 1, draw7.y);
        }
        xx := xx + 1;
        draw0, draw1 := Point(draw0.x + 1, draw0.y), Point(draw1.x - 1, draw1.y);
        draw2, draw3 := Point(draw2.x + 1, draw2.y), Point(draw3.x - 1, draw3.y);
        draw4, draw5 := Point(draw4.x, draw4.y + 1), Point(draw5.x, draw5.y + 1);
        draw6, draw7 := Point(draw6.x, draw6.y - 1), Point(draw7.x, draw7.y - 1);
        ghost var after := DrawEight(draw0, draw1, draw2, draw3, draw4, draw5, draw6, draw7, color,
                                     old(plotted), lit, done);
        assert after == done + Drawn(c, xx, yy);
        DrawnOn(c, xx - 1, y, r, done);
        done := after;
      }
      assert DrawnFrom(c, xx, yy, r) == [] by { NothingDrawn(c, xx, yy, r); }
      assert done + [] == done;
    }
  }

  lemma NothingDrawn(c: Point, x: int, y: int, r: int)
    requires x >= y
    ensures DrawnFrom(c, x, y, r) == []
  {
  }
}
