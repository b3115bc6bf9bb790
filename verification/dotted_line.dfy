/** The dashed-line rasteriser `SDL_RenderDrawDottedLine`: an all-octant
    integer Bresenham walk from (x0,y0) to (x1,y1) whose plotted points follow
    a period-20 counter (10 drawn, 10 skipped). */
module DottedLine {
  import opened Geometry

  /** The endpoints of one call. */
  datatype Segment = Segment(x0: int, y0: int, x1: int, y1: int) {

    /** |x1 - x0|, the source's `dx`. */
    function Run(): nat { Abs(x1 - x0) }

    /** |y1 - y0|; the source keeps its negation in `dy`. */
    function Rise(): nat { Abs(y1 - y0) }

    /** Direction of an x step. */
    function Sx(): int { if x0 < x1 then 1 else -1 }

    /** Direction of a y step. */
    function Sy(): int { if y0 < y1 then 1 else -1 }

    function Origin(): Point { Point(x0, y0) }

    function Target(): Point { Point(x1, y1) }

    /** Extent along the major axis: the number of steps of the walk. */
    function Steps(): int { Max(Run(), Rise()) }
  }

  /** Loop state: the current position and the error term `err`. */
  datatype Cursor = Cursor(x: int, y: int, err: int) {
    function Pos(): Point { Point(x, y) }
  }

  /** `v` lies between `a` and `b`, whichever way round they are. */
  predicate Between(a: int, v: int, b: int) {
    a <= v <= b || b <= v <= a
  }

  /** Distance still to go along x. */
  function RestX(s: Segment, p: Point): nat { Abs(s.x1 - p.x) }

  /** Distance still to go along y. */
  function RestY(s: Segment, p: Point): nat { Abs(s.y1 - p.y) }

  /** Steps still to go once every step moves along the major axis. */
  function Remaining(s: Segment, p: Point): nat {
    Max(RestX(s, p), RestY(s, p))
  }

  /** The product `a * b`, spelled out by repeated addition so that the
      loop's verification conditions stay linear; `MulIsProduct` recovers
      the product where the arithmetic is needed. */
  function Mul(a: nat, b: nat): nat {
    if a == 0 then 0 else b + Mul(a - 1, b)
  }

  lemma {:induction false} MulIsProduct(a: nat, b: nat)
    ensures Mul(a, b) == a * b
  {
    if a > 0 {
      MulIsProduct(a - 1, b);
    }
  }

  /** The signed offset of `p` from the ideal line, scaled by the segment's
      extents: zero exactly on the line. */
  function Slack(s: Segment, p: Point): int {
    Mul(RestX(s, p), s.Rise()) - Mul(RestY(s, p), s.Run())
  }

  /** `p` is inside the segment's bounding box and within half a step of the
      ideal line. */
  predicate Hugs(s: Segment, p: Point) {
    && Between(s.x0, p.x, s.x1)
    && Between(s.y0, p.y, s.y1)
    && -s.Steps() <= 2 * Slack(s, p) <= s.Steps()
  }

  /** The loop invariant: the position hugs the line and `err` is the
      source's error term for that position. */
  predicate OnTrack(s: Segment, c: Cursor) {
    Hugs(s, c.Pos()) && c.err == s.Run() - s.Rise() + Slack(s, c.Pos())
  }

  /** One loop iteration moves each coordinate by 0 or its direction, and
      always along the major axis (both when the extents are equal). */
  predicate Stepped(s: Segment, p: Point, q: Point) {
    && (q.x == p.x || q.x == p.x + s.Sx())
    && (q.y == p.y || q.y == p.y + s.Sy())
    && (s.Run() >= s.Rise() ==> q.x == p.x + s.Sx())
    && (s.Rise() >= s.Run() ==> q.y == p.y + s.Sy())
  }

  /** The state before the first iteration: `err = dx + dy`. */
  function Start(s: Segment): (c: Cursor)
    ensures OnTrack(s, c)
    ensures c.Pos() == s.Origin() && Remaining(s, c.Pos()) == s.Steps()
  {
    MulIsProduct(s.Run(), s.Rise());
    MulIsProduct(s.Rise(), s.Run());
    assert Slack(s, s.Origin()) == 0;
    Cursor(s.x0, s.y0, s.Run() - s.Rise())
  }

  /** The body of the loop after the exit test: both error updates read the
      same doubled error `e2`. */
  function Advance(s: Segment, c: Cursor): Cursor {
    var e2 := 2 * c.err;
    var c1 := if e2 > -(s.Rise() as int) then Cursor(c.x + s.Sx(), c.y, c.err - s.Rise()) else c;
    if e2 < s.Run() then Cursor(c1.x, c1.y + s.Sy(), c1.err + s.Run()) else c1
  }

  lemma MulLe(u: int, v: int, w: int)
    requires u <= v && 0 <= w
    ensures u * w <= v * w
  {
    assert v * w - u * w == (v - u) * w;
  }

  /** Off the major axis' lead, the slack exceeds half a step. */
  lemma SlackTooLow(a: int, b: int, rx: int, ry: int)
    requires 0 <= b <= a && 0 <= rx < ry
    ensures rx * b - ry * a <= -a
  {
    MulLe(b, a, rx);
    MulLe(rx + 1, ry, a);
    assert (rx + 1) * a == rx * a + a;
  }

  /** On the line, the remaining distance along the major axis dominates. */
  lemma MajorDominates(s: Segment, p: Point)
    requires Hugs(s, p)
    ensures s.Run() >= s.Rise() ==> RestY(s, p) <= RestX(s, p)
    ensures s.Rise() >= s.Run() ==> RestX(s, p) <= RestY(s, p)
  {
    var a: int, b: int := s.Run(), s.Rise();
    var rx: int, ry: int := RestX(s, p), RestY(s, p);
    MulIsProduct(rx, b);
    MulIsProduct(ry, a);
    assert Slack(s, p) == rx * b - ry * a;
    if a >= b && ry > rx {
      SlackTooLow(a, b, rx, ry);
    }
    if b >= a && rx > ry {
      SlackTooLow(b, a, ry, rx);
    }
  }

  /** With equal extents the walk stays on the diagonal. */
  lemma DiagonalExact(s: Segment, p: Point)
    requires Hugs(s, p) && s.Run() == s.Rise()
    ensures RestX(s, p) == RestY(s, p) && Slack(s, p) == 0
  {
    MajorDominates(s, p);
    MulIsProduct(RestX(s, p), s.Rise());
    MulIsProduct(RestY(s, p), s.Run());
  }

  /** The error-term arithmetic of one iteration, on the remaining distances
      `rx`, `ry` and the extents `a` (`dx`) and `b` (`-dy`). */
  lemma StepArith(a: int, b: int, rx: int, ry: int, f: int, xs: bool, ys: bool)
    requires 0 <= rx <= a && 0 <= ry <= b && 0 < rx + ry
    requires rx == 0 ==> f <= -a
    requires ry == 0 ==> f >= b
    requires -Max(a, b) <= 2 * f <= Max(a, b)
    requires a >= b ==> ry <= rx
    requires b >= a ==> rx <= ry
    requires a == b ==> f == 0
    requires xs == (2 * (a - b + f) > -b) && ys == (2 * (a - b + f) < a)
    ensures xs ==> rx > 0
    ensures ys ==> ry > 0
    ensures a >= b ==> xs
    ensures b >= a ==> ys
    ensures -Max(a, b) <= 2 * (f - (if xs then b else 0) + (if ys then a else 0)) <= Max(a, b)
  {
  }

  /** Dropping one unit from the first factor lowers the product by the second. */
  lemma MulStep(r: nat, e: nat, step: bool)
    requires step ==> r >= 1
    ensures Mul(if step then r - 1 else r, e) == Mul(r, e) - (if step then e else 0)
  {
  }

  /** Once one axis is done, the slack has the sign that stops further steps
      along it. */
  lemma SlackAtEdge(s: Segment, p: Point)
    ensures RestX(s, p) == 0 && RestY(s, p) >= 1 ==> Slack(s, p) + s.Run() <= 0
    ensures RestY(s, p) == 0 && RestX(s, p) >= 1 ==> Slack(s, p) >= s.Rise()
  {
  }


  /** A unit step from `v` towards `t`, taken only while distance remains,
      stays between `o` and `t`, uses up one unit of the distance, and lowers
      the distance's multiple of `e` by `e`. */
  lemma AxisStep(o: int, v: int, t: int, e: nat, step: bool)
    requires Between(o, v, t) && (step ==> v != t)
    ensures var v' := if step then v + (if o < t then 1 else -1) else v;
      && Between(o, v', t) && Abs(t - v') == Abs(t - v) - (if step then 1 else 0)
      && Mul(Abs(t - v'), e) == Mul(Abs(t - v), e) - (if step then e else 0)
  {
    MulStep(Abs(t - v), e, step);
  }

  /** The effect of one iteration, in terms of which axes it steps along. */
  lemma AdvanceShape(s: Segment, c: Cursor)
    ensures var xs, ys := 2 * c.err > -(s.Rise() as int), 2 * c.err < s.Run();
      Advance(s, c) == Cursor(if xs then c.x + s.Sx() else c.x, if ys then c.y + s.Sy() else c.y,
                              c.err - (if xs then s.Rise() else 0) + (if ys then s.Run() else 0))
  {
  }

  /** One iteration keeps the loop invariant. */
  lemma AdvanceOnTrack(s: Segment, c: Cursor)
    requires OnTrack(s, c) && c.Pos() != s.Target()
    ensures OnTrack(s, Advance(s, c))
    ensures RestX(s, Advance(s, c).Pos()) == RestX(s, c.Pos()) - (if 2 * c.err > -(s.Rise() as int) then 1 else 0)
    ensures RestY(s, Advance(s, c).Pos()) == RestY(s, c.Pos()) - (if 2 * c.err < s.Run() then 1 else 0)
  {
    var n := Advance(s, c);
    var ex: int := if 2 * c.err > -(s.Rise() as int) then s.Rise() else 0;
    var ey: int := if 2 * c.err < s.Run() then s.Run() else 0;
    AdvanceErr(s, c);
    AdvanceX(s, c);
    AdvanceY(s, c);
    assert Slack(s, n.Pos()) == Slack(s, c.Pos()) - ex + ey;
  }

  /** The new error term, and the bound it keeps. */
  lemma AdvanceErr(s: Segment, c: Cursor)
    requires OnTrack(s, c) && c.Pos() != s.Target()
    ensures var ex: int := if 2 * c.err > -(s.Rise() as int) then s.Rise() else 0;
      var ey: int := if 2 * c.err < s.Run() then s.Run() else 0;
      && Advance(s, c).err == c.err - ex + ey
      && -s.Steps() <= 2 * (Slack(s, c.Pos()) - ex + ey) <= s.Steps()
  {
    StepDecision(s, c);
    AdvanceShape(s, c);
  }

  /** Along x, the new position stays in the box, one unit closer when x
      steps, and its share of the slack drops by the matching extent. */
  lemma AdvanceX(s: Segment, c: Cursor)
    requires OnTrack(s, c) && c.Pos() != s.Target()
    ensures var xs := 2 * c.err > -(s.Rise() as int);
      var n := Advance(s, c).Pos();
      && Between(s.x0, n.x, s.x1) && RestX(s, n) == RestX(s, c.Pos()) - (if xs then 1 else 0)
      && Mul(RestX(s, n), s.Rise()) == Mul(RestX(s, c.Pos()), s.Rise()) - (if xs then s.Rise() else 0)
  {
    StepDecision(s, c);
    AdvanceShape(s, c);
    AxisStep(s.x0, c.x, s.x1, s.Rise(), 2 * c.err > -(s.Rise() as int));
  }

  /** The same along y. */
  lemma AdvanceY(s: Segment, c: Cursor)
    requires OnTrack(s, c) && c.Pos() != s.Target()
    ensures var ys := 2 * c.err < s.Run();
      var n := Advance(s, c).Pos();
      && Between(s.y0, n.y, s.y1) && RestY(s, n) == RestY(s, c.Pos()) - (if ys then 1 else 0)
      && Mul(RestY(s, n), s.Run()) == Mul(RestY(s, c.Pos()), s.Run()) - (if ys then s.Run() else 0)
  {
    StepDecision(s, c);
    AdvanceShape(s, c);
    AxisStep(s.y0, c.y, s.y1, s.Run(), 2 * c.err < s.Run());
  }

  /** One iteration moves one step towards the target along the major axis
      and never passes the target on either axis. */
  lemma AdvanceProgress(s: Segment, c: Cursor)
    requires OnTrack(s, c) && c.Pos() != s.Target()
    ensures OnTrack(s, Advance(s, c))
    ensures Remaining(s, Advance(s, c).Pos()) + 1 == Remaining(s, c.Pos())
    ensures Stepped(s, c.Pos(), Advance(s, c).Pos())
  {
    StepDecision(s, c);
    AdvanceShape(s, c);
    AdvanceOnTrack(s, c);
    MajorDominates(s, c.Pos());
    MajorDominates(s, Advance(s, c).Pos());
  }

  /** Which axes one iteration steps along, read off the error term. */
  lemma StepDecision(s: Segment, c: Cursor)
    requires OnTrack(s, c) && c.Pos() != s.Target()
    ensures var a: int, b: int, f := s.Run(), s.Rise(), Slack(s, c.Pos());
      var xs, ys := 2 * c.err > -b, 2 * c.err < a;
      && (xs ==> RestX(s, c.Pos()) > 0) && (ys ==> RestY(s, c.Pos()) > 0)
      && (a >= b ==> xs) && (b >= a ==> ys)
      && -Max(a, b) <= 2 * (f - (if xs then b else 0) + (if ys then a else 0)) <= Max(a, b)
  {
    var a: int, b: int := s.Run(), s.Rise();
    MajorDominates(s, c.Pos());
    if a == b {
      DiagonalExact(s, c.Pos());
    }
    SlackAtEdge(s, c.Pos());
    StepArith(a, b, RestX(s, c.Pos()), RestY(s, c.Pos()), Slack(s, c.Pos()),
              2 * c.err > -b, 2 * c.err < a);
  }

  /** The positions visited by `n` iterations of the loop from cursor `c`:
      the current position, then those visited from the next cursor. */
  function Walk(s: Segment, c: Cursor, n: nat): (r: seq<Point>)
    ensures |r| == n + 1
    ensures r[0] == c.Pos()
    decreases n
  {
    if n == 0 then [c.Pos()] else [c.Pos()] + Walk(s, Advance(s, c), n - 1)
  }

  /** From an on-track cursor, the loop runs exactly `Remaining` iterations:
      the walk of that length ends at the target and reaches it nowhere
      earlier; every position hugs the line; every step moves at most one
      unit per axis towards the target, always along the major axis. */
  lemma {:induction false} WalkShape(s: Segment, c: Cursor)
    requires OnTrack(s, c)
    ensures var r := Walk(s, c, Remaining(s, c.Pos()));
      && r[|r| - 1] == s.Target()
      && (forall i :: 0 <= i < |r| ==> Hugs(s, r[i]))
      && (forall i :: 0 <= i < |r| - 1 ==> r[i] != s.Target())
      && (forall i :: 0 <= i < |r| - 1 ==> Stepped(s, r[i], r[i + 1]))
    decreases Remaining(s, c.Pos())
  {
    if c.Pos() != s.Target() {
      AdvanceProgress(s, c);
      var n := Advance(s, c);
      WalkShape(s, n);
      var r, t := Walk(s, c, Remaining(s, c.Pos())), Walk(s, n, Remaining(s, n.Pos()));
      assert r == [c.Pos()] + t;
      forall i | 0 <= i < |r| - 1
        ensures Stepped(s, r[i], r[i + 1])
      {
        if i > 0 {
          assert r[i] == t[i - 1] && r[i + 1] == t[i];
        }
      }
    }
  }

  /** Every position the rasteriser visits for segment `s`, from the origin
      to the target, one per step along the major axis. */
  function Visited(s: Segment): (r: seq<Point>)
    ensures |r| == s.Steps() + 1
    ensures r[0] == s.Origin() && r[|r| - 1] == s.Target()
  {
    WalkShape(s, Start(s));
    Walk(s, Start(s), s.Steps())
  }

  /** The shape of the whole walk: see `WalkShape`. */
  lemma VisitedShape(s: Segment)
    ensures var r := Visited(s);
      && (forall i :: 0 <= i < |r| ==> Hugs(s, r[i]))
      && (forall i :: 0 <= i < |r| - 1 ==> r[i] != s.Target())
      && (forall i :: 0 <= i < |r| - 1 ==> Stepped(s, r[i], r[i + 1]))
  {
    WalkShape(s, Start(s));
  }

  /** Twice the signed area spanned by `p - origin` and `target - origin`:
      the distance of `p` from the ideal line times the segment's length. */
  function Deviation(s: Segment, p: Point): int {
    (p.x - s.x0) * (s.y1 - s.y0) - (p.y - s.y0) * (s.x1 - s.x0)
  }

  /** The sign bookkeeping behind `DeviationIsSlack`: `u` lies between 0 and
      `X`, `w` between 0 and `Y`. */
  lemma SignedCross(u: int, w: int, X: int, Y: int)
    requires 0 <= u <= X || X <= u <= 0
    requires 0 <= w <= Y || Y <= w <= 0
    ensures Abs(w * X - u * Y) == Abs(Abs(u) * Abs(Y) - Abs(w) * Abs(X))
  {
    var P, Q := u * Y, w * X;
    if X >= 0 && Y >= 0 {
      assert Abs(u) * Abs(Y) == P && Abs(w) * Abs(X) == Q;
    } else if X >= 0 {
      assert Abs(u) * Abs(Y) == u * (-Y) == -P;
      assert Abs(w) * Abs(X) == (-w) * X == -Q;
    } else if Y >= 0 {
      assert Abs(u) * Abs(Y) == (-u) * Y == -P;
      assert Abs(w) * Abs(X) == w * (-X) == -Q;
    } else {
      assert Abs(u) * Abs(Y) == (-u) * (-Y) == P;
      assert Abs(w) * Abs(X) == (-w) * (-X) == Q;
    }
  }

  /** `Deviation` and `Slack` on plain coordinates: measured from the origin
      or from the target, the cross product is the same up to sign. */
  lemma CrossFromEitherEnd(x0: int, y0: int, x1: int, y1: int, px: int, py: int)
    requires Between(x0, px, x1) && Between(y0, py, y1)
    ensures Abs((px - x0) * (y1 - y0) - (py - y0) * (x1 - x0))
         == Abs(Abs(x1 - px) * Abs(y1 - y0) - Abs(y1 - py) * Abs(x1 - x0))
  {
    var u, w := x1 - px, y1 - py;
    var X, Y := x1 - x0, y1 - y0;
    assert (px - x0) * (y1 - y0) - (py - y0) * (x1 - x0) == w * X - u * Y by {
      assert px - x0 == X - u && py - y0 == Y - w;
      assert (X - u) * Y - (Y - w) * X == w * X - u * Y;
    }
    SignedCross(u, w, X, Y);
  }

  /** Inside the box, the slack is the deviation up to sign. */
  lemma DeviationIsSlack(s: Segment, p: Point)
    requires Between(s.x0, p.x, s.x1) && Between(s.y0, p.y, s.y1)
    ensures Abs(Deviation(s, p)) == Abs(Slack(s, p))
  {
    MulIsProduct(RestX(s, p), s.Rise());
    MulIsProduct(RestY(s, p), s.Run());
    CrossFromEitherEnd(s.x0, s.y0, s.x1, s.y1, p.x, p.y);
  }

  /** Bresenham's promise: every visited position lies within half a pixel
      (measured along the minor axis) of the ideal line from (x0,y0) to
      (x1,y1). */
  lemma VisitedNearLine(s: Segment, i: nat)
    requires i < |Visited(s)|
    ensures 2 * Abs(Deviation(s, Visited(s)[i])) <= s.Steps()
  {
    VisitedShape(s);
    DeviationIsSlack(s, Visited(s)[i]);
  }

  /** A line whose endpoints coincide visits that one point. */
  lemma SinglePointLine(x: int, y: int)
    ensures Visited(Segment(x, y, x, y)) == [Point(x, y)]
    ensures Dashed(Visited(Segment(x, y, x, y))) == [Point(x, y)]
  {
    var v := Visited(Segment(x, y, x, y));
    assert Dashed(v) == Dashed(v[..0]) + [v[0]];
  }

  /** A horizontal line visits consecutive pixels, one per step. */
  lemma {:induction false} HorizontalWalk(s: Segment, k: nat)
    requires s.y0 == s.y1 && k < |Visited(s)|
    ensures Visited(s)[k] == Point(s.x0 + s.Sx() * k, s.y0)
  {
    VisitedShape(s);
    if k > 0 {
      HorizontalWalk(s, k - 1);
      assert Stepped(s, Visited(s)[k - 1], Visited(s)[k]);
      assert Hugs(s, Visited(s)[k]);
    }
  }

  /** A left-to-right horizontal line visits `x0 + k` at step `k`. */
  lemma RightwardWalk(s: Segment, k: nat)
    requires s.y0 == s.y1 && s.x0 <= s.x1 && k < |Visited(s)|
    ensures Visited(s)[k] == Point(s.x0 + k, s.y0)
  {
    HorizontalWalk(s, k);
    if s.x0 == s.x1 {
      assert k == 0;
    } else {
      assert s.Sx() == 1;
    }
  }

  /** One pixel of a left-to-right horizontal line: plotted iff its step is on. */
  lemma RightwardPixel(s: Segment, x: int)
    requires s.y0 == s.y1 && s.x0 <= x <= s.x1
    ensures Point(x, s.y0) in Dashed(Visited(s)) <==> DashOn(x - s.x0)
  {
    if Point(x, s.y0) in Dashed(Visited(s)) {
      RightwardDrawnIsOn(s, x);
    }
    if DashOn(x - s.x0) {
      RightwardOnIsDrawn(s, x);
    }
  }

  lemma RightwardDrawnIsOn(s: Segment, x: int)
    requires s.y0 == s.y1 && s.x0 <= x <= s.x1
    requires Point(x, s.y0) in Dashed(Visited(s))
    ensures DashOn(x - s.x0)
  {
    var v := Visited(s);
    var d := Dashed(v);
    DashedSlots(v);
    var j :| 0 <= j < |d| && d[j] == Point(x, s.y0);
    RightwardWalk(s, DashSlot(j));
  }

  lemma RightwardOnIsDrawn(s: Segment, x: int)
    requires s.y0 == s.y1 && s.x0 <= x <= s.x1
    requires DashOn(x - s.x0)
    ensures Point(x, s.y0) in Dashed(Visited(s))
  {
    var v := Visited(s);
    var k := x - s.x0;
    DashedRanks(v);
    RightwardWalk(s, k);
    assert Dashed(v)[DashRank(k)] == Point(x, s.y0);
  }

  /** Whatever a left-to-right horizontal line plots lies on the segment. */
  lemma RightwardPlotted(s: Segment, p: Point)
    requires s.y0 == s.y1 && s.x0 <= s.x1 && p in Dashed(Visited(s))
    ensures p.y == s.y0 && s.x0 <= p.x <= s.x1
  {
    var v := Visited(s);
    var d := Dashed(v);
    DashedSlots(v);
    var j :| 0 <= j < |d| && d[j] == p;
    RightwardWalk(s, DashSlot(j));
  }

  /** On a left-to-right horizontal line the pixel at `x` is plotted exactly
      when its distance from the start falls in the "on" half of the period,
      and nothing off the segment is plotted. */
  lemma HorizontalDashed(s: Segment)
    requires s.y0 == s.y1 && s.x0 <= s.x1
    ensures forall x :: s.x0 <= x <= s.x1 ==>
              (Point(x, s.y0) in Dashed(Visited(s)) <==> DashOn(x - s.x0))
    ensures forall p :: p in Dashed(Visited(s)) ==> p.y == s.y0 && s.x0 <= p.x <= s.x1
  {
    forall x | s.x0 <= x <= s.x1
      ensures Point(x, s.y0) in Dashed(Visited(s)) <==> DashOn(x - s.x0)
    {
      RightwardPixel(s, x);
    }
    forall p | p in Dashed(Visited(s))
      ensures p.y == s.y0 && s.x0 <= p.x <= s.x1
    {
      RightwardPlotted(s, p);
    }
  }

  /** A twenty-pixel horizontal line, such as (0,0)-(19,0), shows one period of
      the pattern: its first ten pixels are plotted and its last ten are not. */
  lemma DashExample(s: Segment)
    requires s.y0 == s.y1 && s.x1 == s.x0 + 19
    ensures forall x :: s.x0 <= x <= s.x1 ==>
              (Point(x, s.y0) in Dashed(Visited(s)) <==> x < s.x0 + 10)
    ensures |Dashed(Visited(s))| == 10
  {
    DashedLength(Visited(s));
    assert |Visited(s)| == 20;
    forall x | s.x0 <= x <= s.x1
      ensures Point(x, s.y0) in Dashed(Visited(s)) <==> x < s.x0 + 10
    {
      RightwardPixel(s, x);
      assert (x - s.x0) % 20 == x - s.x0;
    }
  }

  /** The counter value `k` (steps since the start) plots its position. */
  predicate DashOn(k: nat) {
    k % 20 < 10
  }

  /** The visited positions the counter lets through, in order. */
  function Dashed(ps: seq<Point>): (r: seq<Point>)
    ensures |r| <= |ps|
  {
    if |ps| == 0 then []
    else Dashed(ps[..|ps| - 1]) + (if DashOn(|ps| - 1) then [ps[|ps| - 1]] else [])
  }

  /** How many of the first `n` positions are plotted. */
  function DashCount(n: nat): nat {
    10 * (n / 20) + Min(n % 20, 10)
  }

  /** Position number of the `j`-th plotted point. */
  function DashSlot(j: nat): nat {
    20 * (j / 10) + j % 10
  }

  /** Rank among the plotted points of position `k`. */
  function DashRank(k: nat): nat {
    10 * (k / 20) + k % 20
  }

  lemma DashSlotRank(k: nat)
    requires DashOn(k)
    ensures DashSlot(DashRank(k)) == k
    ensures DashCount(k + 1) == DashRank(k) + 1 && DashCount(k) == DashRank(k)
  {
    var q, m := k / 20, k % 20;
    assert k == 20 * q + m && m < 10;
    assert DashRank(k) == 10 * q + m;
    assert (10 * q + m) / 10 == q && (10 * q + m) % 10 == m;
    assert (k + 1) / 20 == q && (k + 1) % 20 == m + 1;
  }

  lemma DashCountOff(k: nat)
    requires !DashOn(k)
    ensures DashCount(k + 1) == DashCount(k)
  {
    var q, m := k / 20, k % 20;
    assert k == 20 * q + m && 10 <= m < 20;
    if m == 19 {
      assert (k + 1) / 20 == q + 1 && (k + 1) % 20 == 0;
    } else {
      assert (k + 1) / 20 == q && (k + 1) % 20 == m + 1;
    }
  }

  lemma DashSlotOn(j: nat)
    ensures DashOn(DashSlot(j))
    ensures j < DashCount(DashSlot(j) + 1)
  {
    var q, m := j / 10, j % 10;
    assert DashSlot(j) == 20 * q + m;
    assert (20 * q + m) % 20 == m && (20 * q + m) / 20 == q;
    DashSlotRank(DashSlot(j));
    assert DashRank(DashSlot(j)) == j;
  }

  /** One more position adds one plotted point when its counter is on. */
  lemma {:induction false} DashedLength(ps: seq<Point>)
    ensures |Dashed(ps)| == DashCount(|ps|)
    decreases |ps|
  {
    if |ps| > 0 {
      var n := |ps| - 1;
      DashedLength(ps[..n]);
      if DashOn(n) {
        DashSlotRank(n);
      } else {
        DashCountOff(n);
      }
    }
  }

  /** Every plotted point is the position `DashSlot(j)` for its rank `j`,
      an on position. */
  lemma DashedSlots(ps: seq<Point>)
    ensures |Dashed(ps)| == DashCount(|ps|)
    ensures forall j :: 0 <= j < |Dashed(ps)| ==>
              DashOn(DashSlot(j)) && DashSlot(j) < |ps| && Dashed(ps)[j] == ps[DashSlot(j)]
  {
    DashedLength(ps);
    forall j | 0 <= j < |Dashed(ps)|
      ensures DashOn(DashSlot(j)) && DashSlot(j) < |ps| && Dashed(ps)[j] == ps[DashSlot(j)]
    {
      DashedSlotAt(ps, j);
    }
  }

  /** The `j`-th plotted point is the position `DashSlot(j)`, an on position. */
  lemma {:induction false} DashedSlotAt(ps: seq<Point>, j: nat)
    requires j < |Dashed(ps)|
    ensures DashOn(DashSlot(j)) && DashSlot(j) < |ps| && Dashed(ps)[j] == ps[DashSlot(j)]
    decreases |ps|
  {
    var n := |ps| - 1;
    var pre := ps[..n];
    var d, dp := Dashed(ps), Dashed(pre);
    assert d == dp + (if DashOn(n) then [ps[n]] else []);
    if j < |dp| {
      DashedSlotAt(pre, j);
      assert d[j] == dp[j] == pre[DashSlot(j)] == ps[DashSlot(j)];
    } else {
      DashedLength(pre);
      DashSlotRank(n);
      assert d[j] == ps[n];
    }
  }

  /** Every on position `k` is plotted, as the `DashRank(k)`-th point. */
  lemma DashedRanks(ps: seq<Point>)
    ensures forall k :: 0 <= k < |ps| && DashOn(k) ==>
              DashRank(k) < |Dashed(ps)| && Dashed(ps)[DashRank(k)] == ps[k]
  {
    forall k | 0 <= k < |ps| && DashOn(k)
      ensures DashRank(k) < |Dashed(ps)| && Dashed(ps)[DashRank(k)] == ps[k]
    {
      DashedRankAt(ps, k);
    }
  }

  /** The on position `k` is plotted as the `DashRank(k)`-th point. */
  lemma {:induction false} DashedRankAt(ps: seq<Point>, k: nat)
    requires k < |ps| && DashOn(k)
    ensures DashRank(k) < |Dashed(ps)| && Dashed(ps)[DashRank(k)] == ps[k]
    decreases |ps|
  {
    var n := |ps| - 1;
    var pre := ps[..n];
    var d, dp := Dashed(ps), Dashed(pre);
    assert d == dp + (if DashOn(n) then [ps[n]] else []);
    if k < n {
      DashedRankAt(pre, k);
      assert d[DashRank(k)] == dp[DashRank(k)] == pre[k] == ps[k];
    } else {
      DashedLength(pre);
      DashSlotRank(k);
      assert d[|dp|] == ps[n];
    }
  }

  /** The first position is always plotted. */
  lemma {:induction false} DashedFirst(ps: seq<Point>)
    requires |ps| > 0
    ensures |Dashed(ps)| > 0 && Dashed(ps)[0] == ps[0]
    decreases |ps|
  {
    if |ps| > 1 {
      DashedFirst(ps[..|ps| - 1]);
    }
  }

  /** The cursor after `k` iterations from `c`. */
  function Iterate(s: Segment, c: Cursor, k: nat): Cursor
    decreases k
  {
    if k == 0 then c else Iterate(s, Advance(s, c), k - 1)
  }

  /** The cursor after `k` iterations of the loop. */
  function Reach(s: Segment, k: nat): Cursor {
    Iterate(s, Start(s), k)
  }

  /** Up to the last step, the loop's cursor stays on track, one step
      closer to the target per iteration. */
  lemma {:induction false} IterateOnTrack(s: Segment, c: Cursor, k: nat)
    requires OnTrack(s, c) && k <= Remaining(s, c.Pos())
    ensures OnTrack(s, Iterate(s, c, k))
    ensures Remaining(s, Iterate(s, c, k).Pos()) + k == Remaining(s, c.Pos())
    decreases k
  {
    if k > 0 {
      assert c.Pos() != s.Target();
      AdvanceProgress(s, c);
      IterateOnTrack(s, Advance(s, c), k - 1);
    }
  }

  /** Every cursor the loop reaches is on track. */
  lemma ReachOnTrack(s: Segment, k: nat)
    requires k <= s.Steps()
    ensures OnTrack(s, Reach(s, k))
  {
    IterateOnTrack(s, Start(s), k);
  }

  lemma {:induction false} IterateLast(s: Segment, c: Cursor, k: nat)
    ensures Iterate(s, c, k + 1) == Advance(s, Iterate(s, c, k))
    decreases k
  {
    if k > 0 {
      IterateLast(s, Advance(s, c), k - 1);
    }
  }

  lemma {:induction false} WalkIterate(s: Segment, c: Cursor, n: nat, k: nat)
    requires k <= n
    ensures Walk(s, c, n)[k] == Iterate(s, c, k).Pos()
    decreases k
  {
    if k > 0 {
      WalkIterate(s, Advance(s, c), n - 1, k - 1);
    }
  }

  /** The cursor after `k` iterations sits on the `k`-th visited position,
      which is the target exactly when `k` is the last step. */
  lemma ReachVisits(s: Segment, k: nat)
    requires k <= s.Steps()
    ensures Reach(s, k).Pos() == Visited(s)[k]
    ensures Reach(s, k).Pos() == s.Target() <==> k == s.Steps()
    ensures Reach(s, k + 1) == Advance(s, Reach(s, k))
  {
    WalkIterate(s, Start(s), s.Steps(), k);
    VisitedShape(s);
    IterateLast(s, Start(s), k);
  }

  /** Appending a position extends the plotted points by it exactly when its
      counter value is below 10. */
  lemma DashedSnoc(ps: seq<Point>, p: Point)
    ensures Dashed(ps + [p]) == Dashed(ps) + (if DashOn(|ps|) then [p] else [])
  {
    assert (ps + [p])[..|ps|] == ps;
  }

  lemma PrefixNext(q: seq<Point>, k: nat)
    requires k < |q|
    ensures q[..k] + [q[k]] == q[..k + 1]
    ensures k + 1 == |q| ==> q[..k + 1] == q
  {
  }

  lemma StepsOf(x0: int, y0: int, x1: int, y1: int)
    ensures Segment(x0, y0, x1, y1).Steps() == Max(Abs(x1 - x0), Abs(y1 - y0))
  {
  }

  /** The counter wraps at 20 in step with the number of visited positions. */
  lemma CounterNext(n: nat)
    ensures (n % 20 + 1) % 20 == (n + 1) % 20
  {
  }

  /** One iteration of the loop body after the exit test: from an on-track
      state short of the target, the error-term decision (step along x when
      the doubled error exceeds `dy`, along y when it is below `dx`, both
      judged on the error before either update) keeps the loop invariant,
      moves one step along the major axis and brings the target one step
      closer. */
  method StepTowards(s: Segment, dx: int, dy: int, sx: int, sy: int, x: int, y: int, err: int)
    returns (x': int, y': int, err': int)
    requires dx == s.Run() && dy == -(s.Rise() as int) && sx == s.Sx() && sy == s.Sy()
    requires OnTrack(s, Cursor(x, y, err)) && Point(x, y) != s.Target()
    ensures OnTrack(s, Cursor(x', y', err'))
    ensures Stepped(s, Point(x, y), Point(x', y'))
    ensures Remaining(s, Point(x', y')) + 1 == Remaining(s, Point(x, y))
    ensures Cursor(x', y', err') == Advance(s, Cursor(x, y, err))
  {
    x', y', err' := x, y, err;
    var e2 := 2 * err;
    if e2 > dy {
      err' := err' + dy;
      x' := x' + sx;
    }
    if e2 < dx {
      err' := err' + dx;
      y' := y' + sy;
    }
    assert Cursor(x', y', err') == Advance(s, Cursor(x, y, err));
    AdvanceProgress(s, Cursor(x, y, err));
  }

  /** What one pass of the loop body keeps: recording the current position
      extends the visited prefix and the plotted points in step, the exit
      test fires exactly at the last step, and otherwise the next cursor is
      the next state of the walk. */
  lemma LoopStep(s: Segment, visited: seq<Point>, drawn: seq<Point>, count: int, c: Cursor)
    requires |visited| <= s.Steps() && c == Reach(s, |visited|)
    requires visited == Visited(s)[..|visited|] && count == |visited| % 20 && drawn == Dashed(visited)
    ensures var v := visited + [c.Pos()];
      && drawn + (if count < 10 then [c.Pos()] else []) == Dashed(v)
      && v == Visited(s)[..|v|]
      && (count + 1) % 20 == |v| % 20
      && (c.Pos() == s.Target() <==> |visited| == s.Steps())
      && (|visited| == s.Steps() ==> v == Visited(s))
      && Reach(s, |v|) == Advance(s, c)
  {
    ReachVisits(s, |visited|);
    PrefixNext(Visited(s), |visited|);
    DashedSnoc(visited, c.Pos());
    CounterNext(|visited|);
  }

  /** `SDL_RenderDrawDottedLine`: walks from (x0,y0) to (x1,y1) exactly as the
      source's loop does, returning every visited position and the points
      plotted, i.e. those visited while the counter is below 10. */
  method DrawDottedLine(x0: int, y0: int, x1: int, y1: int)
    returns (drawn: seq<Point>, visited: seq<Point>)
    ensures visited == Visited(Segment(x0, y0, x1, y1))
    ensures drawn == Dashed(visited)
    ensures |visited| == Max(Abs(x1 - x0), Abs(y1 - y0)) + 1
    ensures visited[0] == Point(x0, y0) && visited[|visited| - 1] == Point(x1, y1)
    ensures |drawn| > 0 && drawn[0] == Point(x0, y0)
  {
    var s := Segment(x0, y0, x1, y1);
    var dx, sx := Abs(x1 - x0) as int, if x0 < x1 then 1 else -1;
    var dy, sy := -(Abs(y1 - y0) as int), if y0 < y1 then 1 else -1;
    var err := dx + dy;
    var count := 0;
    var x, y := x0, y0;
    drawn, visited := [], [];
    while true
      invariant |visited| <= s.Steps()
      invariant Cursor(x, y, err) == Reach(s, |visited|)
      invariant visited == Visited(s)[..|visited|]
      invariant count == |visited| % 20
      invariant drawn == Dashed(visited)
      decreases s.Steps() - |visited|
    {
      LoopStep(s, visited, drawn, count, Cursor(x, y, err));
      if count < 10 {
        drawn := drawn + [Point(x, y)];
      }
      visited := visited + [Point(x, y)];
      if x == x1 && y == y1 {
        assert visited == Visited(s);
        break;
      }
      ReachOnTrack(s, |visited| - 1);
      x, y, err := StepTowards(s, dx, dy, sx, sy, x, y, err);
      count := (count + 1) % 20;
    }
    StepsOf(x0, y0, x1, y1);
    DashedFirst(visited);
  }
}
