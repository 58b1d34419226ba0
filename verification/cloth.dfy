/**
 The cloth: a sequence of points, a sequence of sticks between them, and an
 optional tension limit; one tick integrates the dynamic points and then
 relaxes every stick a configured number of times.

 Engine functions whose definitions are not part of this model are parameters:
 `Point::position` under the tick's transform matrix, `Point::is_fixed`,
 `Vec3::try_normalize`, and the config's friction coefficient.
 */
module Cloths {
  import opened Options
  import opened Vectors

  /** A simulated point with its previous position if it has one, or an anchored point. */
  datatype Point = Dynamic(position: Vec3, oldPosition: Option<Vec3>) | Fixed(local: Vec3)

  /** A distance constraint between the points at two indices. */
  datatype Stick = Stick(pointA: nat, pointB: nat, length: real)

  datatype Cloth = Cloth(points: seq<Point>, sticks: seq<Stick>, maxTension: Option<real>)

  /** The configuration a tick reads; `friction` is the value of `friction_coefficient()`. */
  datatype ClothConfig = ClothConfig(gravity: Vec3, friction: real, sticksComputationDepth: nat)

  /** Engine functions the stick relaxation calls. */
  datatype Engine = Engine(
    position: Point -> Vec3,
    isFixed: Point -> bool,
    tryNormalize: Vec3 -> Option<Vec3>)

  /**
   `after` has as many points as `before`, each point keeps its kind, and a
   point that is not dynamic is not changed at all.
   */
  ghost predicate KeepsFixedPoints(before: seq<Point>, after: seq<Point>) {
    && |after| == |before|
    && forall i :: 0 <= i < |before| ==>
      && after[i].Dynamic? == before[i].Dynamic?
      && (!before[i].Dynamic? ==> after[i] == before[i])
  }

  // ---------------------------------------------------------------------------
  // Rectangle

  /** Row-major position of the point in column `x`, row `y` (both from zero). */
  function GridIndex(sizeX: nat, x: nat, y: nat): nat {
    sizeX * y + x
  }

  /** The point at column `x`, row `y` (both from zero) of a grid with spacing `step`. */
  function GridPoint(x: nat, y: nat, step: real): Point {
    Dynamic(Vec3((x + 1) as real * step, 0.0, (y + 1) as real * step), None)
  }

  /** Row `y` (from one) of the rectangle: `x` runs from 1 to `sizeX`. */
  function Row(sizeX: nat, y: nat, step: real): (r: seq<Point>)
    ensures |r| == sizeX
    ensures forall x :: 0 <= x < sizeX ==> r[x] == Dynamic(Vec3((x + 1) as real * step, 0.0, y as real * step), None)
  {
    var r := seq(sizeX, x requires 0 <= x < sizeX => Dynamic(Vec3((x + 1) as real * step, 0.0, y as real * step), None));
    assert forall x :: 0 <= x < sizeX ==> r[x] == Dynamic(Vec3((x + 1) as real * step, 0.0, y as real * step), None);
    r
  }

  lemma MulStep(a: nat, b: nat)
    ensures a * b + a == a * (b + 1)
  {
  }

  /** Rows 1 to `sizeY`, each of `sizeX` points (`(1..=size_y).flat_map(..)`). */
  function Rows(sizeX: nat, sizeY: nat, step: real): (r: seq<Point>)
    ensures |r| == sizeX * sizeY
  {
    if sizeY == 0 then []
    else
      MulStep(sizeX, sizeY - 1);
      Rows(sizeX, sizeY - 1, step) + Row(sizeX, sizeY, step)
  }

  /** The point at column `x`, row `y` of the rows sits at its row-major index. */
  lemma {:induction false} RowsAt(sizeX: nat, sizeY: nat, step: real, x: nat, y: nat)
    requires x < sizeX && y < sizeY
    ensures GridIndex(sizeX, x, y) < |Rows(sizeX, sizeY, step)|
    ensures Rows(sizeX, sizeY, step)[GridIndex(sizeX, x, y)] == GridPoint(x, y, step)
    decreases sizeY
  {
    var prefix := Rows(sizeX, sizeY - 1, step);
    assert Rows(sizeX, sizeY, step) == prefix + Row(sizeX, sizeY, step);
    if y < sizeY - 1 {
      RowsAt(sizeX, sizeY - 1, step, x, y);
    } else {
      assert GridIndex(sizeX, x, y) == |prefix| + x;
      MulStep(sizeX, sizeY - 1);
    }
  }

  /**
   `rectangle(size_x, size_y, step)`: `size_x * size_y` dynamic points with no
   previous position, laid out row by row in the plane y = 0 with spacing
   `step`, no sticks and no tension limit.
   */
  function Rectangle(sizeX: nat, sizeY: nat, step: real): (c: Cloth)
    ensures |c.points| == sizeX * sizeY
    ensures forall i :: 0 <= i < |c.points| ==> c.points[i].Dynamic? && c.points[i].oldPosition == None
    ensures forall x, y :: 0 <= x < sizeX && 0 <= y < sizeY ==>
      GridIndex(sizeX, x, y) < |c.points|
      && c.points[GridIndex(sizeX, x, y)].position == Vec3((x + 1) as real * step, 0.0, (y + 1) as real * step)
    ensures c.sticks == [] && c.maxTension == None
  {
    var points := Rows(sizeX, sizeY, step);
    RowsAreFresh(sizeX, sizeY, step);
    assert forall x, y :: 0 <= x < sizeX && 0 <= y < sizeY ==>
      GridIndex(sizeX, x, y) < |points| && points[GridIndex(sizeX, x, y)] == GridPoint(x, y, step) by {
      forall x, y | 0 <= x < sizeX && 0 <= y < sizeY
        ensures GridIndex(sizeX, x, y) < |points| && points[GridIndex(sizeX, x, y)] == GridPoint(x, y, step)
      {
        RowsAt(sizeX, sizeY, step, x, y);
      }
    }
    Cloth(points, [], None)
  }

  lemma {:induction false} RowsAreFresh(sizeX: nat, sizeY: nat, step: real)
    ensures forall i :: 0 <= i < |Rows(sizeX, sizeY, step)| ==>
      Rows(sizeX, sizeY, step)[i].Dynamic? && Rows(sizeX, sizeY, step)[i].oldPosition == None
  {
    if sizeY > 0 {
      RowsAreFresh(sizeX, sizeY - 1, step);
    }
  }

  // ---------------------------------------------------------------------------
  // Integration

  /** The implicit velocity of a dynamic point: position minus previous position, zero without one. */
  function Velocity(p: Point): Vec3 {
    match p
    case Dynamic(pos, previous) => (match previous case Some(o) => Sub(pos, o) case None => Zero)
    case Fixed(_) => Zero
  }

  /**
   One integration step of one point: a dynamic point moves by its velocity
   damped by `friction * deltaTime` plus `gravity * deltaTime` and remembers
   where it was; any other point is left as it is.
   */
  function IntegratePoint(p: Point, deltaTime: real, config: ClothConfig): (r: Point)
    ensures !p.Dynamic? ==> r == p
    ensures p.Dynamic? ==> r.Dynamic? && r.oldPosition == Some(p.position)
  {
    match p
    case Fixed(_) => p
    case Dynamic(pos, previous) =>
      var gravity := Scale(config.gravity, deltaTime);
      var velocity := match previous case Some(o) => Sub(pos, o) case None => Zero;
      Dynamic(Add(pos, Add(Scale(Scale(velocity, config.friction), deltaTime), gravity)), Some(pos))
  }

  /**
   The Verlet recurrence: after a step, the implicit velocity of a dynamic
   point is its previous implicit velocity scaled by `friction * deltaTime`
   plus gravity scaled once by `deltaTime`.
   */
  lemma VerletVelocity(p: Point, deltaTime: real, config: ClothConfig)
    requires p.Dynamic?
    ensures Velocity(IntegratePoint(p, deltaTime, config))
      == Add(Scale(Velocity(p), config.friction * deltaTime), Scale(config.gravity, deltaTime))
  {
  }

  /** A step of zero duration moves no point. */
  lemma ZeroDeltaTimeKeepsPositions(p: Point, config: ClothConfig)
    requires p.Dynamic?
    ensures IntegratePoint(p, 0.0, config).position == p.position
  {
  }

  /** A dynamic point at rest is displaced by exactly `gravity * deltaTime`. */
  lemma AtRestFallsByGravityTimesDelta(p: Point, deltaTime: real, config: ClothConfig)
    requires p.Dynamic? && Velocity(p) == Zero
    ensures Sub(IntegratePoint(p, deltaTime, config).position, p.position) == Scale(config.gravity, deltaTime)
  {
  }

  /**
   `update_points`: integrates every point in place. Non-dynamic points, the
   sticks and the tension limit are untouched.
   */
  method UpdatePoints(c: Cloth, deltaTime: real, config: ClothConfig) returns (r: Cloth)
    ensures r.sticks == c.sticks && r.maxTension == c.maxTension
    ensures KeepsFixedPoints(c.points, r.points)
    ensures forall i :: 0 <= i < |c.points| ==> r.points[i] == IntegratePoint(c.points[i], deltaTime, config)
  {
    var points := c.points;
    var i := 0;
    while i < |points|
      invariant 0 <= i <= |points| == |c.points|
      invariant forall j :: 0 <= j < i ==> points[j] == IntegratePoint(c.points[j], deltaTime, config)
      invariant forall j :: i <= j < |points| ==> points[j] == c.points[j]
    {
      points := points[i := IntegratePoint(points[i], deltaTime, config)];
      i := i + 1;
    }
    r := c.(points := points);
  }

  // ---------------------------------------------------------------------------
  // Stick relaxation

  /** Writes `to` into point `i` if it is dynamic, remembering its prior position. */
  function MoveDynamic(points: seq<Point>, i: nat, to: Vec3): (r: seq<Point>)
    requires i < |points|
    ensures KeepsFixedPoints(points, r)
    ensures forall j :: 0 <= j < |points| && j != i ==> r[j] == points[j]
  {
    match points[i]
    case Dynamic(pos, _) => points[i := Dynamic(to, Some(pos))]
    case Fixed(_) => points
  }

  /** The length a stick aims to keep between an endpoint and the stick's centre. */
  function TargetLength(e: Engine, a: Point, b: Point, length: real): real {
    if e.isFixed(a) == e.isFixed(b) then length / 2.0 else length
  }

  /**
   One stick of one relaxation pass. A stick with an endpoint index out of
   range, or whose endpoints' effective positions cannot be normalised apart,
   is skipped (bevy_silk logs a warning). Otherwise a dynamic A is set to
   `center + direction` and then a dynamic B to `center - direction`.
   */
  function StickStep(e: Engine, points: seq<Point>, s: Stick): (r: seq<Point>)
    ensures KeepsFixedPoints(points, r)
    ensures forall i :: 0 <= i < |points| && i != s.pointA && i != s.pointB ==> r[i] == points[i]
    ensures s.pointA >= |points| || s.pointB >= |points| ==> r == points
  {
    if s.pointA >= |points| || s.pointB >= |points| then points
    else
      var a := points[s.pointA];
      var b := points[s.pointB];
      var positionA := e.position(a);
      var positionB := e.position(b);
      var targetLen := TargetLength(e, a, b, s.length);
      var center := Div(Add(positionB, positionA), 2.0);
      match e.tryNormalize(Sub(positionB, positionA))
      case None => points
      case Some(dir) =>
        var direction := Scale(dir, targetLen);
        var afterA := MoveDynamic(points, s.pointA, Add(center, direction));
        MoveDynamic(afterA, s.pointB, Sub(center, direction))
  }

  /** Both endpoints in range and a normalised direction: the stick is processed. */
  ghost predicate Processed(e: Engine, points: seq<Point>, s: Stick, dir: Vec3) {
    && s.pointA < |points| && s.pointB < |points|
    && e.tryNormalize(Sub(e.position(points[s.pointB]), e.position(points[s.pointA]))) == Some(dir)
  }

  /** A stick that cannot be normalised changes no point. */
  lemma NormalizeFailureChangesNothing(e: Engine, points: seq<Point>, s: Stick)
    requires s.pointA < |points| && s.pointB < |points|
    requires e.tryNormalize(Sub(e.position(points[s.pointB]), e.position(points[s.pointA]))).None?
    ensures StickStep(e, points, s) == points
  {
  }

  /**
   A stick whose two effective positions coincide changes no point, for any
   normalisation that fails on the zero vector.
   */
  lemma CoincidentEndpointsChangeNothing(e: Engine, points: seq<Point>, s: Stick)
    requires e.tryNormalize(Zero).None?
    requires s.pointA < |points| && s.pointB < |points|
    requires e.position(points[s.pointA]) == e.position(points[s.pointB])
    ensures StickStep(e, points, s) == points
  {
  }

  /**
   A processed stick between two distinct points puts each dynamic endpoint at
   the target length from the stick's centre, A along the direction from A to
   B and B against it, with its prior position as its old position. The
   target is half the stick length when both endpoints have the same fixed
   flag and the whole length otherwise.
   */
  lemma ProcessedStickPlacesEndpoints(e: Engine, points: seq<Point>, s: Stick, dir: Vec3)
    requires Processed(e, points, s, dir) && s.pointA != s.pointB
    ensures var r := StickStep(e, points, s);
      var a := points[s.pointA];
      var b := points[s.pointB];
      var center := Div(Add(e.position(a), e.position(b)), 2.0);
      var target := if e.isFixed(a) == e.isFixed(b) then s.length / 2.0 else s.length;
      && (a.Dynamic? ==> r[s.pointA].Dynamic? && Sub(r[s.pointA].position, center) == Scale(dir, target)
                         && r[s.pointA].oldPosition == Some(a.position))
      && (b.Dynamic? ==> r[s.pointB].Dynamic? && Sub(center, r[s.pointB].position) == Scale(dir, target)
                         && r[s.pointB].oldPosition == Some(b.position))
  {
  }

  /**
   Between two distinct dynamic endpoints the centre is kept: the new
   positions sum to the sum of the effective positions.
   */
  lemma ProcessedStickKeepsMidpoint(e: Engine, points: seq<Point>, s: Stick, dir: Vec3)
    requires Processed(e, points, s, dir) && s.pointA != s.pointB
    requires points[s.pointA].Dynamic? && points[s.pointB].Dynamic?
    ensures var r := StickStep(e, points, s);
      Add(r[s.pointA].position, r[s.pointB].position)
        == Add(e.position(points[s.pointA]), e.position(points[s.pointB]))
  {
  }

  /**
   With equal fixed flags, two distinct dynamic endpoints end up exactly the
   stick length apart along the normalised direction, A on B's former side.
   */
  lemma ProcessedStickSeparation(e: Engine, points: seq<Point>, s: Stick, dir: Vec3)
    requires Processed(e, points, s, dir) && s.pointA != s.pointB
    requires points[s.pointA].Dynamic? && points[s.pointB].Dynamic?
    requires e.isFixed(points[s.pointA]) == e.isFixed(points[s.pointB])
    ensures var r := StickStep(e, points, s);
      Sub(r[s.pointA].position, r[s.pointB].position) == Scale(dir, s.length)
  {
  }

  /**
   Consequence of the sign convention: a stick between two dynamic points with
   equal fixed flags that already lies at its length along the normalised
   direction has its endpoints exchanged rather than left in place.
   */
  lemma RestingStickSwapsEndpoints(e: Engine, points: seq<Point>, s: Stick, dir: Vec3)
    requires Processed(e, points, s, dir) && s.pointA != s.pointB
    requires points[s.pointA].Dynamic? && points[s.pointB].Dynamic?
    requires e.isFixed(points[s.pointA]) == e.isFixed(points[s.pointB])
    requires Sub(e.position(points[s.pointB]), e.position(points[s.pointA])) == Scale(dir, s.length)
    ensures StickStep(e, points, s)[s.pointA].position == e.position(points[s.pointB])
    ensures StickStep(e, points, s)[s.pointB].position == e.position(points[s.pointA])
  {
  }

  lemma KeepsFixedPointsTransitive(a: seq<Point>, b: seq<Point>, c: seq<Point>)
    requires KeepsFixedPoints(a, b) && KeepsFixedPoints(b, c)
    ensures KeepsFixedPoints(a, c)
  {
  }

  /** Point `i` is an endpoint of some stick of `sticks`. */
  ghost predicate Touches(sticks: seq<Stick>, i: nat) {
    exists j :: 0 <= j < |sticks| && (sticks[j].pointA == i || sticks[j].pointB == i)
  }

  /** One relaxation pass: every stick in order, each seeing the previous ones' writes. */
  function Pass(e: Engine, points: seq<Point>, sticks: seq<Stick>): seq<Point>
    decreases |sticks|
  {
    if |sticks| == 0 then points
    else Pass(e, StickStep(e, points, sticks[0]), sticks[1..])
  }

  /** `depth` relaxation passes, one after the other. */
  function Relax(e: Engine, points: seq<Point>, sticks: seq<Stick>, depth: nat): seq<Point>
    decreases depth
  {
    if depth == 0 then points
    else Relax(e, Pass(e, points, sticks), sticks, depth - 1)
  }

  /**
   A pass writes no non-dynamic point, keeps the number of points and the kind
   of each, and leaves every point that is no stick's endpoint as it was.
   */
  lemma {:induction false} PassKeepsFixedPoints(e: Engine, points: seq<Point>, sticks: seq<Stick>)
    ensures KeepsFixedPoints(points, Pass(e, points, sticks))
    ensures forall i :: 0 <= i < |points| && !Touches(sticks, i) ==> Pass(e, points, sticks)[i] == points[i]
    decreases |sticks|
  {
    if |sticks| > 0 {
      var next := StickStep(e, points, sticks[0]);
      PassKeepsFixedPoints(e, next, sticks[1..]);
      KeepsFixedPointsTransitive(points, next, Pass(e, next, sticks[1..]));
      forall i | Touches(sticks[1..], i) ensures Touches(sticks, i) {
        var j :| 0 <= j < |sticks[1..]| && (sticks[1..][j].pointA == i || sticks[1..][j].pointB == i);
        assert sticks[j + 1] == sticks[1..][j];
      }
    }
  }

  /** Any number of passes keeps what one pass keeps. */
  lemma {:induction false} RelaxKeepsFixedPoints(e: Engine, points: seq<Point>, sticks: seq<Stick>, depth: nat)
    ensures KeepsFixedPoints(points, Relax(e, points, sticks, depth))
    ensures forall i :: 0 <= i < |points| && !Touches(sticks, i) ==> Relax(e, points, sticks, depth)[i] == points[i]
    decreases depth
  {
    if depth > 0 {
      var next := Pass(e, points, sticks);
      PassKeepsFixedPoints(e, points, sticks);
      RelaxKeepsFixedPoints(e, next, sticks, depth - 1);
      KeepsFixedPointsTransitive(points, next, Relax(e, next, sticks, depth - 1));
    }
  }

  /** Relaxing `m` passes and then `n` more is relaxing `m + n` passes. */
  lemma {:induction false} RelaxCompose(e: Engine, points: seq<Point>, sticks: seq<Stick>, m: nat, n: nat)
    ensures Relax(e, Relax(e, points, sticks, m), sticks, n) == Relax(e, points, sticks, m + n)
    decreases m
  {
    if m > 0 {
      var next := Pass(e, points, sticks);
      assert Relax(e, points, sticks, m) == Relax(e, next, sticks, m - 1);
      assert Relax(e, points, sticks, m + n) == Relax(e, next, sticks, (m - 1) + n);
      RelaxCompose(e, next, sticks, m - 1, n);
    }
  }

  /** The sticks with both endpoint indices below `n`, in order. */
  function InRange(sticks: seq<Stick>, n: nat): (r: seq<Stick>)
    ensures forall j :: 0 <= j < |r| ==> r[j].pointA < n && r[j].pointB < n
  {
    if |sticks| == 0 then []
    else if sticks[0].pointA < n && sticks[0].pointB < n then [sticks[0]] + InRange(sticks[1..], n)
    else InRange(sticks[1..], n)
  }

  /** A pass is unaffected by removing the sticks it would skip as out of range. */
  lemma {:induction false} OutOfRangeSticksIgnored(e: Engine, points: seq<Point>, sticks: seq<Stick>)
    ensures Pass(e, points, sticks) == Pass(e, points, InRange(sticks, |points|))
    decreases |sticks|
  {
    if |sticks| > 0 {
      var s := sticks[0];
      OutOfRangeSticksIgnored(e, StickStep(e, points, s), sticks[1..]);
      if s.pointA < |points| && s.pointB < |points| {
        assert ([s] + InRange(sticks[1..], |points|))[1..] == InRange(sticks[1..], |points|);
      }
    }
  }

  /**
   `update_sticks`: `sticks_computation_depth` passes over the sticks. The
   sticks, the number of points and the tension limit never change, and no
   non-dynamic point is written; the Rust code's tension branch is empty and
   has no effect, so the result does not depend on `maxTension`.
   */
  method UpdateSticks(c: Cloth, config: ClothConfig, e: Engine) returns (r: Cloth)
    ensures r.sticks == c.sticks && r.maxTension == c.maxTension
    ensures KeepsFixedPoints(c.points, r.points)
    ensures r.points == Relax(e, c.points, c.sticks, config.sticksComputationDepth)
    ensures config.sticksComputationDepth == 0 ==> r.points == c.points
  {
    var points := c.points;
    var depth := 0;
    while depth < config.sticksComputationDepth
      invariant depth <= config.sticksComputationDepth
      invariant KeepsFixedPoints(c.points, points)
      invariant Relax(e, points, c.sticks, config.sticksComputationDepth - depth)
        == Relax(e, c.points, c.sticks, config.sticksComputationDepth)
    {
      ghost var start := points;
      var k := 0;
      while k < |c.sticks|
        invariant k <= |c.sticks|
        invariant KeepsFixedPoints(c.points, points)
        invariant Pass(e, points, c.sticks[k..]) == Pass(e, start, c.sticks)
      {
        assert c.sticks[k..][1..] == c.sticks[k + 1..];
        var next := StickStep(e, points, c.sticks[k]);
        KeepsFixedPointsTransitive(c.points, points, next);
        points := next;
        k := k + 1;
      }
      assert c.sticks[k..] == [];
      assert Relax(e, start, c.sticks, config.sticksComputationDepth - depth)
        == Relax(e, points, c.sticks, config.sticksComputationDepth - (depth + 1));
      depth := depth + 1;
    }
    r := c.(points := points);
  }
}
