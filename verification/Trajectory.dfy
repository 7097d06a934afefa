/** The trapezoidal move of one segment, over the reals; sqrt is given as a root of the discriminant. */
module Trajectory {
  import opened Words

  datatype Segment = Segment(pointsNum: u32, currentPoint: u32, origin: real, target: real, direction: int,
                             uniformSpeed: real, accelPos: real, decelPos: real, accelEnd: u32, decelStart: u32)

  datatype Limits = Limits(accel: real, decel: real, maxSpeed: real) {
    predicate Positive() { accel > 0.0 && decel > 0.0 }

    /** The discriminant of accel/2 * (1 + accel/decel) * t^2 - accel * points * t + distance. */
    function Discriminant(points: real, distance: real): real
      requires Positive()
    {
      var a0, b0 := 0.5 * (accel + accel * accel / decel), -accel * points;
      b0 * b0 - 4.0 * a0 * distance
    }
  }

  function Abs(x: real): real {
    if x < 0.0 then -x else x
  }

  /** Rounding to the nearest point, as the conversion of x + 0.5 to an unsigned integer does for x >= 0. */
  function Round(x: real): int {
    (x + 0.5).Floor
  }

  /** The exact switch points; s is the root of the discriminant. */
  function AccelTime(l: Limits, points: real, s: real): real
    requires l.Positive()
  {
    (-1.0 * (-l.accel * points) - s) / 2.0 / (0.5 * (l.accel + l.accel * l.accel / l.decel))
  }

  function DecelTime(l: Limits, points: real, s: real): real
    requires l.Positive()
  {
    points - l.accel * AccelTime(l, points, s) / l.decel
  }

  /** The three branches of axis_nc_get_next_pos, before direction, origin and scale. */
  function Profile(l: Limits, g: Segment, index: nat): real {
    if index < g.accelEnd then 0.5 * l.accel * index as real * index as real
    else if index > g.decelStart then
      g.decelPos + 0.5 * l.decel * ((index - g.decelStart) as real * (index - g.decelStart) as real)
    else g.accelPos + g.uniformSpeed * (index - g.accelEnd) as real
  }

  /**
   A move that accelerates for t points, holds the speed accel * t, and decelerates to rest, all within the
   given number of points, and covers the distance.
   */
  ghost predicate Trapezoid(l: Limits, points: real, distance: real, t: real)
    requires l.Positive()
  {
    var v := l.accel * t;
    && 0.0 <= t && t + v / l.decel <= points
    && v * t / 2.0 + v * (points - v / l.decel - t) + v * (v / l.decel) / 2.0 == distance
  }

  // ---- The quadratic ----

  /** With p = 1 + accel/decel, the discriminant and both roots in terms of p. */
  lemma Reduced(l: Limits, points: real, distance: real, s: real)
    requires l.Positive()
    ensures var p := 1.0 + l.accel / l.decel;
            && p > 1.0
            && l.Discriminant(points, distance) == l.accel * points * (l.accel * points) - 2.0 * (l.accel * p) * distance
            && AccelTime(l, points, s) * (l.accel * p) == l.accel * points - s
  {
    var p := 1.0 + l.accel / l.decel;
    assert l.accel / l.decel > 0.0;
    var a0 := 0.5 * (l.accel + l.accel * l.accel / l.decel);
    assert l.accel * l.accel / l.decel == l.accel * (l.accel / l.decel);
    assert a0 == 0.5 * (l.accel * p) && a0 > 0.0;
    assert -l.accel * points * (-l.accel * points) == l.accel * points * (l.accel * points);
    assert AccelTime(l, points, s) == (l.accel * points - s) / 2.0 / a0;
    assert (l.accel * points - s) / 2.0 / a0 * a0 == (l.accel * points - s) / 2.0;
  }

  /** A trapezoid is a root of the quadratic in range. */
  lemma TrapezoidIsRoot(l: Limits, points: real, distance: real, t: real)
    requires l.Positive()
    ensures var p := 1.0 + l.accel / l.decel;
            Trapezoid(l, points, distance, t) <==>
              0.0 <= t && t * p <= points && l.accel * t * points - l.accel * p * t * t / 2.0 == distance
  {
    var v, r := l.accel * t, l.accel / l.decel;
    assert v / l.decel == t * r by {
      assert v / l.decel == l.accel * t / l.decel;
    }
    var p := 1.0 + r;
    assert t * p == t + t * r;
    assert v * (points - t * r - t) == v * points - v * t - v * (t * r);
    assert v * t / 2.0 + v * (points - t * r - t) + v * (t * r) / 2.0 == v * points - (v * t + v * (t * r)) / 2.0;
    assert v * t + v * (t * r) == v * t * p;
    assert l.accel * p * t * t == v * t * p;
  }

  /** The smaller root is a trapezoid that covers the distance, whatever root of the discriminant sqrt gives. */
  lemma RootIsTrapezoid(l: Limits, points: real, distance: real, s: real)
    requires l.Positive() && 0.0 <= points && 0.0 <= distance
    requires 0.0 <= s && s * s == l.Discriminant(points, distance)
    ensures Trapezoid(l, points, distance, AccelTime(l, points, s))
  {
    hide Trapezoid, AccelTime, Limits.Discriminant;
    Reduced(l, points, distance, s);
    TrapezoidIsRoot(l, points, distance, AccelTime(l, points, s));
    RootInRange(l.accel, 1.0 + l.accel / l.decel, points, distance, s, AccelTime(l, points, s));
  }

  lemma RootInRange(a: real, p: real, points: real, distance: real, s: real, t: real)
    requires a > 0.0 && p > 1.0 && 0.0 <= points && 0.0 <= distance && 0.0 <= s
    requires s * s == a * points * (a * points) - 2.0 * (a * p) * distance
    requires t * (a * p) == a * points - s
    ensures 0.0 <= t && t * p <= points
    ensures a * t * points - a * p * t * t / 2.0 == distance
  {
    var c, x := a * p, a * points;
    assert c > 0.0 && x >= 0.0 && c * distance >= 0.0;
    SquareOrder(s, x);
    NonNegativeFactor(t, c);
    assert a * (t * p) <= a * points by {
      assert a * (t * p) == t * c;
    }
    OrderOfMultiples(a, t * p, points);
    // 2c (t x - c t^2 / 2) == 2 x (x - s) - (x - s)^2 == x^2 - s^2 == 2c distance
    var q := t * x - c * t * t / 2.0;
    assert c * q == (t * c) * x - (t * c) * (t * c) / 2.0 by {
      assert c * (t * x) == (t * c) * x;
      assert c * (c * t * t) == (t * c) * (t * c);
    }
    assert (x - s) * x - (x - s) * (x - s) / 2.0 == (x * x - s * s) / 2.0;
    assert c * q == c * distance;
    Cancel(c, q, distance);
    assert a * t * points == t * x;
  }

  lemma Grows(a: real, x: real, y: real)
    requires a > 0.0 && x < y
    ensures a * x < a * y
  {
    assert a * (y - x) > 0.0;
  }

  lemma SquareGrows(x: real, s: real)
    requires 0.0 <= x < s
    ensures x * x < s * s
  {
    Grows(s, x, s);
    assert x * (s - x) >= 0.0;
  }

  lemma SquareOrder(s: real, x: real)
    requires 0.0 <= x && s * s <= x * x
    ensures s <= x
  {
    if s > x {
      SquareGrows(x, s);
    }
  }

  lemma NonNegativeFactor(t: real, c: real)
    requires c > 0.0 && t * c >= 0.0
    ensures t >= 0.0
  {
    if t < 0.0 {
      Grows(c, t, 0.0);
    }
  }

  lemma OrderOfMultiples(a: real, x: real, y: real)
    requires a > 0.0 && a * x <= a * y
    ensures x <= y
  {
    if x > y {
      Grows(a, y, x);
    }
  }

  lemma Cancel(c: real, x: real, y: real)
    requires c > 0.0 && c * x == c * y
    ensures x == y
  {
    assert c * (x - y) == 0.0;
  }

  lemma SquareOfRoot(a: real, p: real, points: real, distance: real, t: real)
    requires a > 0.0 && t * p <= points && a * t * points - a * p * t * t / 2.0 == distance
    ensures var y := a * points - t * (a * p);
            y >= 0.0 && y * y == a * points * (a * points) - 2.0 * (a * p) * distance
  {
    var c, x := a * p, a * points;
    assert x - t * c >= 0.0 by {
      assert a * (points - t * p) >= 0.0;
    }
    assert c * distance == c * t * x - c * t * (c * t) / 2.0;
  }

  lemma SameRoot(y: real, s: real)
    requires y >= 0.0 && s >= 0.0 && y * y == s * s
    ensures y == s
  {
    SquareOrder(s, y);
    SquareOrder(y, s);
  }

  /** There is no other trapezoid: the discriminant decides whether there is one, and the smaller root is it. */
  lemma TrapezoidIsUnique(l: Limits, points: real, distance: real, t: real)
    requires l.Positive() && Trapezoid(l, points, distance, t)
    ensures l.Discriminant(points, distance) >= 0.0
    ensures forall s: real :: 0.0 <= s && s * s == l.Discriminant(points, distance) ==> t == AccelTime(l, points, s)
  {
    hide Trapezoid, AccelTime, Limits.Discriminant;
    var c := l.accel * (1.0 + l.accel / l.decel);
    var y := l.accel * points - t * c;
    assert y >= 0.0 && c > 0.0 && y * y == l.Discriminant(points, distance) by {
      TrapezoidIsRoot(l, points, distance, t);
      Reduced(l, points, distance, 0.0);
      SquareOfRoot(l.accel, 1.0 + l.accel / l.decel, points, distance, t);
    }
    forall s: real | 0.0 <= s && s * s == l.Discriminant(points, distance)
      ensures t == AccelTime(l, points, s)
    {
      SameRoot(y, s);
      assert AccelTime(l, points, s) * c == l.accel * points - s by {
        Reduced(l, points, distance, s);
      }
      Cancel(c, t, AccelTime(l, points, s));
    }
  }

  // ---- The planner ----

  /** The trapezoid that accelerates for t points covers the segment's distance in its points. */
  ghost predicate Covers(l: Limits, g: Segment, t: real)
    requires l.Positive()
  {
    Trapezoid(l, g.pointsNum as real, Abs(g.target - g.origin), t)
  }

  /** The points and the speed limit allow the move. */
  ghost predicate Feasible(l: Limits, points: real, distance: real)
    requires l.Positive()
  {
    exists u :: Trapezoid(l, points, distance, u) && l.accel * u <= l.maxSpeed
  }

  /** Which can be told from the discriminant and its root s, when there is one. */
  lemma FeasibleIff(l: Limits, points: real, distance: real, s: real)
    requires l.Positive() && 0.0 <= points && 0.0 <= distance
    requires var d := l.Discriminant(points, distance); d >= 0.0 ==> s >= 0.0 && s * s == d
    ensures Feasible(l, points, distance) <==>
      l.Discriminant(points, distance) >= 0.0 && l.accel * AccelTime(l, points, s) <= l.maxSpeed
  {
    hide Trapezoid, AccelTime, Limits.Discriminant;
    forall u | Trapezoid(l, points, distance, u)
      ensures l.Discriminant(points, distance) >= 0.0 && u == AccelTime(l, points, s)
    {
      TrapezoidIsUnique(l, points, distance, u);
    }
    if l.Discriminant(points, distance) >= 0.0 {
      RootIsTrapezoid(l, points, distance, s);
    }
  }

  /** No time is not enough for any move. */
  lemma NoTimeNoMove(l: Limits, distance: real)
    requires l.Positive() && distance != 0.0
    ensures !Feasible(l, 0.0, distance)
  {
    hide Trapezoid;
    forall u | Trapezoid(l, 0.0, distance, u)
      ensures distance == 0.0
    {
      NoTime(l, distance, u);
    }
  }

  lemma NoTime(l: Limits, distance: real, u: real)
    requires l.Positive() && Trapezoid(l, 0.0, distance, u)
    ensures distance == 0.0
  {
    Product(l.accel, u);
    Quotient(l.accel * u, l.decel);
    assert u == 0.0;
  }

  /** The sign the planner gives a segment. */
  function Direction(g: Segment): (d: int)
    ensures d as real * Abs(g.target - g.origin) == g.target - g.origin && (g.target == g.origin ==> d == 1)
  {
    if g.target - g.origin < 0.0 then -1 else 1
  }

  ghost predicate IsSqrt(sqrt: real -> real) {
    forall x: real :: x >= 0.0 ==> sqrt(x) >= 0.0 && sqrt(x) * sqrt(x) == x
  }

  /** The segment holds the rounded switch points, positions and speed of the trapezoid that accelerates for t points. */
  ghost predicate Planned(l: Limits, g: Segment, t: real)
    requires l.Positive()
  {
    var points, v := g.pointsNum as real, l.accel * t;
    var t1 := points - v / l.decel;
    && Covers(l, g, t) && v <= l.maxSpeed
    && g.direction == Direction(g)
    && g.uniformSpeed == v && g.accelPos == v * t / 2.0 && g.decelPos == g.accelPos + v * (t1 - t)
    && g.accelEnd == Round(t) && g.decelStart == Round(t1)
  }

  lemma CoversIsTrapezoid(l: Limits, g: Segment)
    requires l.Positive()
    ensures forall u :: Covers(l, g, u) <==> Trapezoid(l, g.pointsNum as real, Abs(g.target - g.origin), u)
    ensures Feasible(l, g.pointsNum as real, Abs(g.target - g.origin)) <==> exists u :: Covers(l, g, u) && l.accel * u <= l.maxSpeed
  {
    hide Trapezoid, Abs;
    var points, distance := g.pointsNum as real, Abs(g.target - g.origin);
    forall u
      ensures Covers(l, g, u) <==> Trapezoid(l, points, distance, u)
    {
    }
    if Feasible(l, points, distance) {
      var u :| Trapezoid(l, points, distance, u) && l.accel * u <= l.maxSpeed;
      assert Covers(l, g, u);
    }
  }

  /** The five fields that a successful planning sets. */
  predicate SamePlan(g: Segment, g0: Segment) {
    && g.uniformSpeed == g0.uniformSpeed && g.accelPos == g0.accelPos && g.decelPos == g0.decelPos
    && g.accelEnd == g0.accelEnd && g.decelStart == g0.decelStart
  }

  /** What planning leaves in a segment: the trapezoid if the move is feasible, else the plan of the segment g0. */
  ghost predicate Settled(l: Limits, g: Segment, g0: Segment)
    requires l.Positive()
  {
    && g.direction == Direction(g)
    && if Feasible(l, g.pointsNum as real, Abs(g.target - g.origin)) then exists t :: Planned(l, g, t) else SamePlan(g, g0)
  }

  /** A segment holds a trapezoid for its move exactly if the move is feasible. */
  lemma PlannedIffFeasible(l: Limits, g: Segment, g0: Segment)
    requires l.Positive() && Settled(l, g, g0)
    ensures (exists t :: Planned(l, g, t)) <==> Feasible(l, g.pointsNum as real, Abs(g.target - g.origin))
  {
    CoversIsTrapezoid(l, g);
    hide Trapezoid, Abs, Round, Direction;
  }

  lemma PlannedHasDirection(l: Limits, g: Segment)
    requires l.Positive()
    ensures forall t :: Planned(l, g, t) ==> g.direction == Direction(g)
  {
  }

  lemma SwitchPointsInRange(l: Limits, points: u32, distance: real, t: real)
    requires l.Positive() && Trapezoid(l, points as real, distance, t)
    ensures 0 <= Round(t) <= Round(points as real - l.accel * t / l.decel) <= points
  {
  }

  /** Only the smaller root can cover the distance, and it does if the discriminant is not negative. */
  lemma OneCandidate(l: Limits, g: Segment, s: real)
    requires l.Positive()
    requires var d := l.Discriminant(g.pointsNum as real, Abs(g.target - g.origin)); d >= 0.0 ==> s >= 0.0 && s * s == d
    ensures forall u :: Covers(l, g, u) <==>
              l.Discriminant(g.pointsNum as real, Abs(g.target - g.origin)) >= 0.0 && u == AccelTime(l, g.pointsNum as real, s)
  {
    hide Trapezoid, AccelTime, Limits.Discriminant;
    var points, distance := g.pointsNum as real, Abs(g.target - g.origin);
    forall u | Covers(l, g, u)
      ensures l.Discriminant(points, distance) >= 0.0 && u == AccelTime(l, points, s)
    {
      TrapezoidIsUnique(l, points, distance, u);
    }
    if l.Discriminant(points, distance) >= 0.0 {
      RootIsTrapezoid(l, points, distance, s);
    }
  }

  lemma CoversIgnoresDirection(l: Limits, g: Segment, g': Segment, t: real)
    requires l.Positive() && g' == g.(direction := g'.direction)
    ensures Covers(l, g, t) == Covers(l, g', t)
  {
  }

  /** The assignments at the end of trajectory_planner. */
  function SetPlan(l: Limits, g: Segment, t0: real, t1: real): (g': Segment)
    requires l.Positive() && Covers(l, g, t0) && t1 == g.pointsNum as real - l.accel * t0 / l.decel
    requires g.direction == Direction(g) && l.accel * t0 <= l.maxSpeed
    ensures Planned(l, g', t0) && g' == g.(accelPos := g'.accelPos, decelPos := g'.decelPos,
      accelEnd := g'.accelEnd, decelStart := g'.decelStart, uniformSpeed := g'.uniformSpeed)
  {
    SwitchPointsInRange(l, g.pointsNum, Abs(g.target - g.origin), t0);
    var accelPos := 0.5 * l.accel * t0 * t0;
    g.(accelPos := accelPos, decelPos := accelPos + l.accel * t0 * (t1 - t0),
       accelEnd := Round(t0), decelStart := Round(t1), uniformSpeed := l.accel * t0)
  }

  /**
   trajectory_planner: 0 exactly when some trapezoid within the speed limit covers the distance, -1 exactly when
   there is no trapezoid at all, and -2 when it would be too fast.
   */
  method Plan(l: Limits, g: Segment, sqrt: real -> real) returns (r: int, g': Segment, ghost t: real)
    requires l.Positive() && IsSqrt(sqrt)
    ensures r == 0 || r == -1 || r == -2
    ensures r == 0 <==> Feasible(l, g.pointsNum as real, Abs(g.target - g.origin))
    ensures r == -1 <==> !exists u :: Covers(l, g, u)
    ensures r == 0 ==> Planned(l, g', t)
    ensures g'.pointsNum == g.pointsNum && g'.currentPoint == g.currentPoint
    ensures g'.origin == g.origin && g'.target == g.target
    ensures r != 0 ==> g' == g.(direction := Direction(g))
  {
    hide Trapezoid, AccelTime, Covers, Planned, Limits.Discriminant;
    var delta, points := g.target - g.origin, g.pointsNum as real;
    var direction := if delta < 0.0 then -1 else 1;
    CoversIsTrapezoid(l, g);
    g', t := g.(direction := direction), 0.0;
    var c0 := delta * direction as real;
    assert c0 == Abs(delta);
    var disc := l.Discriminant(points, c0);
    OneCandidate(l, g, sqrt(disc));
    if disc < 0.0 {
      return -1, g', t;
    }
    var t0, t1 := AccelTime(l, points, sqrt(disc)), DecelTime(l, points, sqrt(disc));
    t := t0;
    CoversIgnoresDirection(l, g, g', t);
    if t0 * l.accel > l.maxSpeed {
      return -2, g', t;
    }
    g' := SetPlan(l, g', t0, t1);
    r := 0;
  }

  // ---- Where the planned profile ends ----

  predicate Within(x: real, y: real, bound: real) {
    x - y <= bound && y - x <= bound
  }

  lemma RoundError(x: real)
    ensures Within(x, Round(x) as real, 0.5) && x < Round(x) as real + 0.5
  {
  }

  /** The segment in numbers: speed v, n points, switch points k and m, and the exact deceleration over rest points. */
  lemma InNumbers(l: Limits, g: Segment, t: real) returns (v: real, n: real, k: real, m: real, rest: real)
    requires l.Positive() && Planned(l, g, t)
    ensures v == g.uniformSpeed >= 0.0 && n == g.pointsNum as real && k == g.accelEnd as real && m == g.decelStart as real
    ensures l.accel * t == v && l.decel * rest == v && rest >= 0.0 && t >= 0.0 && t + rest <= n
    ensures g.accelEnd <= g.decelStart <= g.pointsNum
    ensures Within(t, k, 0.5) && Within(n - rest, m, 0.5)
    ensures g.accelPos == v * t / 2.0 && g.decelPos == g.accelPos + v * (n - rest - t)
    ensures Abs(g.target - g.origin) == g.decelPos + v * rest / 2.0
  {
    hide Abs, Planned;
    v, n, k, m := l.accel * t, g.pointsNum as real, g.accelEnd as real, g.decelStart as real;
    rest := v / l.decel;
    TimesInNumbers(l, g, t);
    PositionsInNumbers(l, g, t);
    Quotient(v, l.decel);
  }

  lemma TimesInNumbers(l: Limits, g: Segment, t: real)
    requires l.Positive() && Planned(l, g, t)
    ensures var v, n := l.accel * t, g.pointsNum as real;
            && v == g.uniformSpeed >= 0.0 && t >= 0.0 && t + v / l.decel <= n
            && g.accelEnd <= g.decelStart <= g.pointsNum
            && Within(t, g.accelEnd as real, 0.5) && Within(n - v / l.decel, g.decelStart as real, 0.5)
  {
    hide Abs, Round;
    SwitchPointsInRange(l, g.pointsNum, Abs(g.target - g.origin), t);
    RoundError(t);
    RoundError(g.pointsNum as real - l.accel * t / l.decel);
    Product(l.accel, t);
  }

  lemma PositionsInNumbers(l: Limits, g: Segment, t: real)
    requires l.Positive() && Planned(l, g, t)
    ensures var v := l.accel * t;
            var rest := v / l.decel;
            && g.accelPos == v * t / 2.0 && g.decelPos == g.accelPos + v * (g.pointsNum as real - rest - t)
            && Abs(g.target - g.origin) == g.decelPos + v * rest / 2.0
  {
    hide Abs, Round;
  }

  lemma Quotient(v: real, d: real)
    requires d > 0.0 && v >= 0.0
    ensures v / d >= 0.0 && d * (v / d) == v
  {
  }

  /** With the exact switch points the profile ends at the target: rest points of the last branch from decelPos. */
  lemma ExactEnd(l: Limits, g: Segment, t: real)
    requires l.Positive() && Planned(l, g, t)
    ensures var rest := l.accel * t / l.decel;
            g.decelPos + 0.5 * l.decel * (rest * rest) == Abs(g.target - g.origin)
  {
    hide Planned, Abs;
    var v, n, k, m, rest := InNumbers(l, g, t);
    assert rest == l.accel * t / l.decel;
    assert l.decel * (rest * rest) == v * rest;
  }

  /** An error of at most w points costs at most v * w. */
  lemma Scaled(v: real, x: real, w: real)
    requires v >= 0.0 && -w <= x <= w
    ensures -(v * w) <= v * x <= v * w
  {
    assert v * (w - x) >= 0.0 && v * (w + x) >= 0.0;
  }

  lemma Product(x: real, y: real)
    requires x >= 0.0 && y >= 0.0
    ensures x * y >= 0.0
  {
  }

  lemma SmallSquare(e: real)
    requires -0.5 <= e <= 0.5
    ensures 0.0 <= e * e <= 0.25
  {
    Product(0.5 - e, 0.5 + e);
    assert (0.5 - e) * (0.5 + e) == 0.25 - e * e;
    if e >= 0.0 {
      Product(e, e);
    } else {
      Product(-e, -e);
    }
  }

  lemma SmallTerm(d: real, e: real)
    requires d > 0.0 && -0.5 <= e <= 0.5
    ensures 0.0 <= d * (e * e) <= d * 0.25
  {
    SmallSquare(e);
    Scaled(d, e * e, 0.25);
    Product(d, e * e);
  }

  lemma SquareOfSum(d: real, rest: real, e: real)
    ensures d * ((rest + e) * (rest + e)) == d * rest * rest + 2.0 * (d * rest * e) + d * (e * e)
  {
    assert (rest + e) * (rest + e) == rest * rest + 2.0 * (rest * e) + e * e;
  }

  lemma EndError(d: real, rest: real, e: real, v: real)
    requires d > 0.0 && v >= 0.0 && -0.5 <= e <= 0.5 && d * rest == v
    ensures Within(0.5 * (d * ((rest + e) * (rest + e))), v * rest / 2.0, v / 2.0 + d / 8.0)
  {
    var x, q, r := d * ((rest + e) * (rest + e)), v * e, d * (e * e);
    assert x == v * rest + 2.0 * q + r by {
      SquareOfSum(d, rest, e);
    }
    assert Within(q, 0.0, v * 0.5) by {
      Scaled(v, e, 0.5);
    }
    assert 0.0 <= r <= d * 0.25 by {
      SmallTerm(d, e);
    }
    HalfSquare(x, v * rest, q, r, d, v);
  }

  /** The same for a switch point y that has been rounded from x. */
  lemma RoundedSquare(d: real, x: real, y: real, v: real)
    requires d > 0.0 && v >= 0.0 && Within(x, y, 0.5) && d * x == v
    ensures Within(0.5 * (d * (y * y)), v * x / 2.0, v / 2.0 + d / 8.0)
  {
    EndError(d, x, y - x, v);
    assert x + (y - x) == y;
  }

  lemma HalfSquare(x: real, p: real, q: real, r: real, d: real, v: real)
    requires x == p + 2.0 * q + r
    requires Within(q, 0.0, v * 0.5) && 0.0 <= r <= d * 0.25
    ensures Within(0.5 * x, p / 2.0, v / 2.0 + d / 8.0)
  {
  }

  /** The plateau over n - k points against one over n - rest - t points and half of rest. */
  lemma PlateauError(v: real, n: real, k: real, t: real, rest: real)
    requires v >= 0.0 && 0.0 <= rest <= 0.5 && Within(t, k, 0.5)
    ensures Within(v * (n - k), v * (n - rest - t) + v * rest / 2.0, v * 0.75)
  {
    Scaled(v, (t - k) + rest / 2.0, 0.75);
    assert v * ((t - k) + rest / 2.0) == v * (n - k) - (v * (n - rest - t) + v * rest / 2.0);
  }

  lemma JunctionError(v: real, m: real, k: real, t1: real, t: real)
    requires v >= 0.0 && Within(t1, m, 0.5) && Within(t, k, 0.5)
    ensures Within(v * (m - k), v * (t1 - t), v)
  {
    Scaled(v, (m - k) - (t1 - t), 1.0);
    assert v * ((m - k) - (t1 - t)) == v * (m - k) - v * (t1 - t);
  }

  lemma OnPlateau(l: Limits, g: Segment, index: nat)
    requires g.accelEnd <= index <= g.decelStart
    ensures Profile(l, g, index) == g.accelPos + g.uniformSpeed * (index as real - g.accelEnd as real)
  {
    assert (index - g.accelEnd) as real == index as real - g.accelEnd as real;
  }

  lemma InDeceleration(l: Limits, g: Segment, index: nat, n: real, m: real)
    requires g.accelEnd <= g.decelStart < index && n == index as real && m == g.decelStart as real
    ensures Profile(l, g, index) == g.decelPos + 0.5 * (l.decel * ((n - m) * (n - m)))
  {
    assert (index - g.decelStart) as real == n - m;
  }

  /** When some deceleration is left after rounding, the profile ends in its last branch. */
  lemma RoundedEndWithDecel(l: Limits, g: Segment, t: real)
    requires l.Positive() && Planned(l, g, t) && g.decelStart < g.pointsNum
    ensures Within(Profile(l, g, g.pointsNum), Abs(g.target - g.origin), g.uniformSpeed / 2.0 + l.decel / 8.0)
  {
    hide Planned, Abs, Profile;
    var v, n, k, m, rest := InNumbers(l, g, t);
    assert Within(rest, n - m, 0.5);
    RoundedSquare(l.decel, rest, n - m, v);
    InDeceleration(l, g, g.pointsNum, n, m);
    Chain(Profile(l, g, g.pointsNum), g.decelPos, 0.5 * (l.decel * ((n - m) * (n - m))), v * rest / 2.0,
          Abs(g.target - g.origin), v / 2.0 + l.decel / 8.0);
  }

  /** When deceleration is rounded away altogether, the plateau ends within 3v/4 of the target. */
  lemma RoundedEndWithoutDecel(l: Limits, g: Segment, t: real)
    requires l.Positive() && Planned(l, g, t) && g.decelStart == g.pointsNum
    ensures Within(Profile(l, g, g.pointsNum), Abs(g.target - g.origin), g.uniformSpeed * 0.75)
  {
    hide Planned, Abs, Profile;
    var v, n, k, m, rest := InNumbers(l, g, t);
    PlateauError(v, n, k, t, rest);
    OnPlateau(l, g, g.pointsNum);
    Chain(Profile(l, g, g.pointsNum), g.accelPos, v * (n - k), v * (n - rest - t) + v * rest / 2.0,
          Abs(g.target - g.origin), v * 0.75);
  }

  /** Which is the sharper bound: then the speed is at most half the deceleration. */
  lemma SlowWithoutDecel(l: Limits, g: Segment, t: real)
    requires l.Positive() && Planned(l, g, t) && g.decelStart == g.pointsNum
    ensures g.uniformSpeed <= l.decel / 2.0
  {
    hide Planned, Abs;
    var v, n, k, m, rest := InNumbers(l, g, t);
    assert rest <= 0.5;
    HalfAtMost(l.decel, rest, v);
  }

  lemma HalfAtMost(d: real, rest: real, v: real)
    requires d > 0.0 && rest <= 0.5 && d * rest == v
    ensures v <= d / 2.0
  {
    Product(d, 0.5 - rest);
    assert d * (0.5 - rest) == d * 0.5 - v;
  }

  lemma DecelStartInRange(l: Limits, g: Segment, t: real)
    requires l.Positive() && Planned(l, g, t)
    ensures g.decelStart <= g.pointsNum
  {
    SwitchPointsInRange(l, g.pointsNum, Abs(g.target - g.origin), t);
  }

  /** With the rounded switch points the profile of every planned segment ends within v/2 + decel/8 of the target. */
  lemma RoundedEnd(l: Limits, g: Segment, t: real)
    requires l.Positive() && Planned(l, g, t)
    ensures Within(Profile(l, g, g.pointsNum), Abs(g.target - g.origin), g.uniformSpeed / 2.0 + l.decel / 8.0)
  {
    hide Planned, Abs, Profile;
    DecelStartInRange(l, g, t);
    if g.decelStart < g.pointsNum {
      RoundedEndWithDecel(l, g, t);
    } else {
      RoundedEndWithoutDecel(l, g, t);
      SlowWithoutDecel(l, g, t);
    }
  }

  /** The profile starts within accel/8 of the origin: not at it if acceleration has been rounded away. */
  lemma RoundedStart(l: Limits, g: Segment, t: real)
    requires l.Positive() && Planned(l, g, t)
    ensures Within(Profile(l, g, 0), 0.0, l.accel / 8.0)
  {
    hide Planned, Abs, Profile;
    var v, n, k, m, rest := InNumbers(l, g, t);
    if g.accelEnd == 0 {
      StartOnPlateau(l, g);
      ShortAcceleration(l.accel, t, v);
    } else {
      BeforePlateau(l, g);
    }
  }

  lemma ShortAcceleration(a: real, t: real, v: real)
    requires a > 0.0 && 0.0 <= t <= 0.5 && a * t == v
    ensures 0.0 <= v * t / 2.0 <= a / 8.0
  {
    var x := a * (t * t);
    assert 0.0 <= x <= a * 0.25 by {
      SmallTerm(a, t);
    }
    assert v * t == x;
    HalfOf(v * t, x, a);
  }

  lemma HalfOf(y: real, x: real, a: real)
    requires y == x && 0.0 <= x <= a * 0.25
    ensures 0.0 <= y / 2.0 <= a / 8.0
  {
  }

  lemma StartOnPlateau(l: Limits, g: Segment)
    requires 0 == g.accelEnd
    ensures Profile(l, g, 0) == g.accelPos
  {
    assert g.uniformSpeed * 0.0 == 0.0;
  }

  lemma BeforePlateau(l: Limits, g: Segment)
    requires 0 < g.accelEnd
    ensures Profile(l, g, 0) == 0.0
  {
  }

  /** A planned segment without a distance has no speed, and its plateau is all its points at the origin. */
  lemma NoMove(l: Limits, g: Segment, t: real)
    requires l.Positive() && Planned(l, g, t) && g.target == g.origin
    ensures g.accelEnd == 0 && g.decelStart == g.pointsNum && g.accelPos == 0.0 && g.uniformSpeed == 0.0
  {
    NoDistance(l, g.pointsNum as real, t);
    assert l.accel * t == 0.0;
  }

  lemma NoDistance(l: Limits, points: real, t: real)
    requires l.Positive() && Trapezoid(l, points, 0.0, t)
    ensures t == 0.0
  {
    TrapezoidIsRoot(l, points, 0.0, t);
    assert l.accel / l.decel > 0.0;
    NoWay(l.accel, 1.0 + l.accel / l.decel, points, t);
  }

  lemma NoWay(a: real, p: real, points: real, t: real)
    requires a > 0.0 && p > 0.0 && 0.0 <= t && t * p <= points
    requires a * t * points - a * p * t * t / 2.0 == 0.0
    ensures t == 0.0
  {
    var x := a * t;
    assert x * points == x * (t * p) / 2.0;
    Product(x, points - t * p);
    assert x * (t * p) <= 0.0;
    assert a * p > 0.0;
    Cancel(a * p, t * t, 0.0) by {
      Product(t, t);
      Product(a * p, t * t);
    }
  }

  /** Rounding leaves a step of at most v where the plateau meets the last branch. */
  lemma DecelJunction(l: Limits, g: Segment, t: real)
    requires l.Positive() && Planned(l, g, t)
    ensures Within(Profile(l, g, g.decelStart), g.decelPos, g.uniformSpeed)
  {
    hide Planned, Abs, Profile;
    var v, n, k, m, rest := InNumbers(l, g, t);
    JunctionError(v, m, k, n - rest, t);
    OnPlateau(l, g, g.decelStart);
    Chain(Profile(l, g, g.decelStart), g.accelPos, v * (m - k), v * (n - rest - t), g.decelPos, v);
  }

  /** And one of at most v/2 + accel/8 where the first branch meets the plateau. */
  lemma AccelJunction(l: Limits, g: Segment, t: real)
    requires l.Positive() && Planned(l, g, t)
    ensures var k := g.accelEnd as real;
            Within(0.5 * (l.accel * (k * k)), Profile(l, g, g.accelEnd), g.uniformSpeed / 2.0 + l.accel / 8.0)
  {
    hide Planned, Abs, Profile;
    var v, n, k, m, rest := InNumbers(l, g, t);
    OnPlateau(l, g, g.accelEnd);
    RoundedSquare(l.accel, t, k, v);
  }

  lemma Chain(profile: real, base: real, x: real, y: real, goal: real, bound: real)
    requires profile == base + x && goal == base + y && Within(x, y, bound)
    ensures Within(profile, goal, bound)
  {
  }
}
