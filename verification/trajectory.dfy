/**
 The trajectory handler: from a start point, an end point, a control point,
 an entity selector, a speed and a tick interval, the script of `tp`/`delay`
 commands that moves the entity along the quadratic curve, or the division by
 zero that aborts the request.

 The handler's text formatting is not modelled: a move is kept as the
 selector and the exact point, a delay as the fixed `delay 2.8` line.
 */
module Trajectory {
  import opened Wrappers
  import opened Geometry

  /** Seconds per protocol tick. */
  const TickSeconds: real := 0.05

  /** One line of the emitted script: a teleport of the selected entity, or the fixed delay. */
  datatype Command = Tp(selector: string, at: Point3) | Delay

  /** The three divisions of the handler, named by their divisor. */
  datatype Division = BySpeed | ByTickDuration | BySteps

  /** Every failure of the handler's arithmetic is a division by zero. */
  datatype Error = ZeroDivision(at: Division)

  /**
   The parsed form fields. `distance` stands for the square root the handler
   takes; `WellFormed` ties it to the two end points.
   */
  datatype Request = Request(start: Point3, end: Point3, control: Point3, selector: string,
                             speed: real, tickInterval: int, distance: real)
  {
    predicate WellFormed() {
      distance >= 0.0 && Square(distance) == SquaredDistance(start, end)
    }
  }

  /** A well-formed distance is zero exactly when the end points coincide. */
  lemma ZeroDistanceIffSameEnds(req: Request)
    requires req.WellFormed()
    ensures req.distance == 0.0 <==> req.start == req.end
  {
    SquareNonNegative(req.distance);
    ZeroDistanceIffSamePoint(req.start, req.end);
  }

  /** Length of one tick interval in seconds; zero exactly for a zero interval. */
  function TickDuration(tickInterval: int): (d: real)
    ensures d == 0.0 <==> tickInterval == 0
    ensures d > 0.0 <==> tickInterval > 0
  {
    tickInterval as real * TickSeconds
  }

  /** Python's `int()` on a float: the integer part, rounding toward zero. */
  function Trunc(r: real): (n: int)
    ensures 0.0 <= r ==> 0 <= n && n as real <= r < n as real + 1.0
    ensures r < 0.0 ==> n <= 0 && n as real - 1.0 < r <= n as real
  {
    if r >= 0.0 then r.Floor else -((-r).Floor)
  }

  /** Truncation gives zero exactly on the open interval (-1, 1). */
  lemma TruncZeroIff(r: real)
    ensures Trunc(r) == 0 <==> -1.0 < r < 1.0
  {
  }

  /** Truncation gives a negative integer exactly from -1 downwards. */
  lemma TruncNegativeIff(r: real)
    ensures Trunc(r) <= -1 <==> r <= -1.0
  {
  }

  /** On non-negative reals truncation agrees with the floor. */
  lemma TruncOfNonNegative(r: real)
    requires r >= 0.0
    ensures Trunc(r) == r.Floor
  {
  }

  /** Travel time over ticks per step: the quantity the handler truncates. */
  function StepRatio(req: Request): real
    requires req.speed != 0.0 && req.tickInterval != 0
  {
    req.distance / req.speed / TickDuration(req.tickInterval)
  }

  /**
   The number of steps, or the division by zero that stops the handler before
   any sampling: the duration divides by the speed, the step ratio by the tick
   duration.
   */
  function StepCount(req: Request): (r: Result<int, Error>)
    ensures req.speed == 0.0 <==> r == Failure(ZeroDivision(BySpeed))
    ensures req.speed != 0.0 && req.tickInterval == 0 <==> r == Failure(ZeroDivision(ByTickDuration))
    ensures req.speed != 0.0 && req.tickInterval != 0 ==> r == Success(Trunc(StepRatio(req)))
    ensures r.Success? ==> req.speed != 0.0 && req.tickInterval != 0
  {
    var tickDuration := TickDuration(req.tickInterval);
    if req.speed == 0.0 then Failure(ZeroDivision(BySpeed))
    else
      var duration := req.distance / req.speed;
      if tickDuration == 0.0 then Failure(ZeroDivision(ByTickDuration))
      else Success(Trunc(duration / tickDuration))
  }

  /** Distance covered in one tick interval at the requested speed. */
  function TickTravel(req: Request): real {
    req.speed * TickDuration(req.tickInterval)
  }

  /**
   With a positive speed and tick interval the step count is the floor of the
   distance over the distance covered in one tick interval, so never negative.
   */
  lemma StepCountOfPositiveInputs(req: Request)
    requires req.distance >= 0.0 && req.speed > 0.0 && req.tickInterval > 0
    ensures StepCount(req).Success?
    ensures StepCount(req).value == (req.distance / TickTravel(req)).Floor
    ensures StepCount(req).value >= 0
  {
    var ratio := StepRatio(req);
    DivideTwice(req.distance, req.speed, TickDuration(req.tickInterval), TickTravel(req));
    TruncOfNonNegative(ratio);
  }

  /**
   Dividing by two non-zero reals in turn is dividing by their product, so
   the quotient of a non-negative real keeps its sign when the product is
   positive.
   */
  lemma DivideTwice(d: real, s: real, u: real, su: real)
    requires s != 0.0 && u != 0.0 && su == s * u
    ensures d / s / u == d / su
    ensures d >= 0.0 && su > 0.0 ==> d / s / u >= 0.0
  {
    var q := d / s;
    var ratio := q / u;
    assert q * s == d;
    assert ratio * u == q;
    calc {
      ratio * su;
      ratio * (s * u);
      (ratio * u) * s;
      q * s;
      d;
    }
  }

  /**
   A negative step count needs exactly one of the speed and the tick interval
   to be negative: with both positive or both negative the ratio is not
   negative.
   */
  lemma NegativeStepsNeedOneNegativeInput(req: Request)
    requires req.distance >= 0.0
    requires StepCount(req).Success? && StepCount(req).value < 0
    ensures (req.speed < 0.0) != (req.tickInterval < 0)
  {
    var td := TickDuration(req.tickInterval);
    DivideTwice(req.distance, req.speed, td, req.speed * td);
  }

  /** The curve parameter of sample `i` in a run of `steps` steps. */
  function Param(i: int, steps: int): real
    requires steps != 0
  {
    i as real / steps as real
  }

  /** The parameters of samples 0..steps start at 0, end at 1 and stay in [0, 1]. */
  lemma ParamInUnitInterval(i: int, steps: int)
    requires steps >= 1 && 0 <= i <= steps
    ensures 0.0 <= Param(i, steps) <= 1.0
    ensures i == 0 ==> Param(i, steps) == 0.0
    ensures i == steps ==> Param(i, steps) == 1.0
  {
  }

  /** Later samples sit strictly further along the curve. */
  lemma ParamStrictlyIncreasing(i: int, j: int, steps: int)
    requires steps >= 1 && i < j
    ensures Param(i, steps) < Param(j, steps)
  {
  }

  /** The move of sample `i`: the selector sent to the curve point at its parameter. */
  function Move(req: Request, steps: int, i: int): Command
    requires steps != 0
  {
    Tp(req.selector, Bezier(Param(i, steps), req.start, req.control, req.end))
  }

  /** The first `n` move/delay pairs of a run of `steps` steps, in loop order. */
  function Pairs(req: Request, steps: int, n: nat): (cs: seq<Command>)
    requires steps >= 1
    ensures |cs| == 2 * n
    ensures forall j :: 0 <= j < |cs| ==>
              cs[j] == if j % 2 == 0 then Move(req, steps, j / 2) else Delay
  {
    if n == 0 then []
    else
      var prev := Pairs(req, steps, n - 1);
      assert (2 * n - 2) % 2 == 0 && (2 * n - 2) / 2 == n - 1 && (2 * n - 1) % 2 == 1;
      prev + [Move(req, steps, n - 1), Delay]
  }

  /** Moves at the even positions and delays at the odd ones, in whole pairs. */
  predicate Alternates(cs: seq<Command>) {
    && |cs| % 2 == 0
    && forall j :: 0 <= j < |cs| ==> (cs[j].Tp? <==> j % 2 == 0)
  }

  /**
   The loop over samples 0..steps: one move and one delay per sample. With
   no samples the list is empty; with exactly zero steps the parameter of
   the first sample divides zero by zero.
   */
  function Emit(req: Request, steps: int): (r: Result<seq<Command>, Error>)
    ensures steps < 0 <==> r == Success([])
    ensures steps == 0 <==> r == Failure(ZeroDivision(BySteps))
    ensures steps >= 1 ==> r.Success? && |r.value| == 2 * (steps + 1)
    ensures steps >= 1 ==> forall j :: 0 <= j < |r.value| ==>
              r.value[j] == if j % 2 == 0 then Move(req, steps, j / 2) else Delay
  {
    if steps + 1 <= 0 then Success([])
    else if steps == 0 then Failure(ZeroDivision(BySteps))
    else Success(Pairs(req, steps, steps + 1))
  }

  /**
   A successful run of at least one step alternates moves and delays, starts
   at the start point and makes its last move to the end point.
   */
  lemma PairsShape(req: Request, steps: int)
    requires steps >= 1
    ensures Alternates(Pairs(req, steps, steps + 1))
    ensures Pairs(req, steps, steps + 1)[0] == Tp(req.selector, req.start)
    ensures Pairs(req, steps, steps + 1)[2 * steps] == Tp(req.selector, req.end)
  {
    var cs := Pairs(req, steps, steps + 1);
    ParamInUnitInterval(0, steps);
    ParamInUnitInterval(steps, steps);
    assert cs[0] == Move(req, steps, 0);
    assert cs[2 * steps] == Move(req, steps, steps);
  }

  /**
   The whole handler, from parsed fields to commands or the error outcome:
   which division fails, when the list is empty, and the shape of a
   non-empty list, all in terms of the request.
   */
  function Plan(req: Request): (r: Result<seq<Command>, Error>)
    ensures req.speed == 0.0 ==> r == Failure(ZeroDivision(BySpeed))
    ensures req.speed != 0.0 && req.tickInterval == 0
            ==> r == Failure(ZeroDivision(ByTickDuration))
    ensures req.speed != 0.0 && req.tickInterval != 0 ==>
              && ((r == Failure(ZeroDivision(BySteps))) <==> (-1.0 < StepRatio(req) < 1.0))
              && (r == Success([]) <==> StepRatio(req) <= -1.0)
              && (StepRatio(req) >= 1.0 ==>
                    r.Success? && |r.value| == 2 * (Trunc(StepRatio(req)) + 1))
              && (StepRatio(req) >= 1.0 ==>
                    r == Success(Pairs(req, Trunc(StepRatio(req)), Trunc(StepRatio(req)) + 1)))
    ensures r.Success? && r.value != [] ==>
              && Alternates(r.value)
              && r.value[0] == Tp(req.selector, req.start)
              && r.value[|r.value| - 2] == Tp(req.selector, req.end)
  {
    var steps :- StepCount(req);
    TruncZeroIff(StepRatio(req));
    TruncNegativeIff(StepRatio(req));
    if steps >= 1 then
      PairsShape(req, steps);
      Emit(req, steps)
    else
      Emit(req, steps)
  }

  /**
   With a positive speed and tick interval the handler either fails on the
   zero-step parameter, when the travel takes less than one tick interval, or
   emits exactly one move/delay pair per sample 0..steps.
   */
  lemma PlanOfPositiveInputs(req: Request)
    requires req.distance >= 0.0 && req.speed > 0.0 && req.tickInterval > 0
    ensures var steps := (req.distance / TickTravel(req)).Floor;
            && (steps == 0 ==> Plan(req) == Failure(ZeroDivision(BySteps)))
            && (steps >= 1 ==> Plan(req).Success? && |Plan(req).value| == 2 * (steps + 1))
  {
    StepCountOfPositiveInputs(req);
  }

  /**
   Coinciding end points give zero steps, so the handler fails on `0 / 0`
   unless the speed or tick interval already failed.
   */
  lemma SameEndsFail(req: Request)
    requires req.WellFormed() && req.start == req.end
    requires req.speed != 0.0 && req.tickInterval != 0
    ensures Plan(req) == Failure(ZeroDivision(BySteps))
  {
    ZeroDistanceIffSameEnds(req);
    assert StepRatio(req) == 0.0;
  }

  /**
   A ten-unit segment at speed 1 with a 20-tick interval (one second per
   step) takes ten steps: eleven moves, each followed by a delay, from the
   start point to the end point, whatever the control point and selector.
   */
  lemma TenStepExample(req: Request)
    requires req.start == Point3(0.0, 0.0, 0.0) && req.end == Point3(10.0, 0.0, 0.0)
    requires req.speed == 1.0 && req.tickInterval == 20 && req.distance == 10.0
    ensures Plan(req).Success? && |Plan(req).value| == 22
    ensures Plan(req).value[0] == Tp(req.selector, Point3(0.0, 0.0, 0.0))
    ensures Plan(req).value[20] == Tp(req.selector, Point3(10.0, 0.0, 0.0))
  {
    assert StepCount(req) == Success(10) by {
      assert TickTravel(req) == 1.0;
      StepCountOfPositiveInputs(req);
    }
    PairsShape(req, 10);
  }

  /**
   A negative speed does not stop the handler by itself: half a unit at speed
   -1 with a 20-tick interval gives the ratio -0.5, which truncates to zero
   steps, and the first sample divides zero by zero.
   */
  lemma NegativeSpeedShortFails(req: Request)
    requires req.speed == -1.0 && req.tickInterval == 20 && req.distance == 0.5
    ensures Plan(req) == Failure(ZeroDivision(BySteps))
  {
    assert StepRatio(req) == -0.5;
  }

  /**
   A negative speed with a negative tick interval gives a positive ratio and
   an ordinary script: ten units at speed -1 with a -20-tick interval take ten
   steps.
   */
  lemma TwoNegativesExample(req: Request)
    requires req.speed == -1.0 && req.tickInterval == -20 && req.distance == 10.0
    ensures Plan(req).Success? && |Plan(req).value| == 22
  {
    assert StepRatio(req) == 10.0;
  }

  /**
   A segment whose end is its start never reaches the first sample: the
   parameter `0 / 0` aborts the request.
   */
  lemma ZeroLengthExample()
    ensures var req := Request(Point3(1.0, 2.0, 3.0), Point3(1.0, 2.0, 3.0), Point3(4.0, 4.0, 4.0),
                               "npc", 1.0, 20, 0.0);
            && req.WellFormed()
            && Plan(req) == Failure(ZeroDivision(BySteps))
  {
    var req := Request(Point3(1.0, 2.0, 3.0), Point3(1.0, 2.0, 3.0), Point3(4.0, 4.0, 4.0),
                       "npc", 1.0, 20, 0.0);
    SameEndsFail(req);
  }

  /** The sampling loop, appending one move and one delay per sample. */
  method Discretise(req: Request, steps: int) returns (cs: seq<Command>)
    requires steps >= 1
    ensures cs == Pairs(req, steps, steps + 1)
  {
    cs := [];
    var i := 0;
    while i < steps + 1
      invariant 0 <= i <= steps + 1
      invariant cs == Pairs(req, steps, i)
    {
      var t := i as real / steps as real;
      cs := cs + [Tp(req.selector, Bezier(t, req.start, req.control, req.end)), Delay];
      i := i + 1;
    }
  }

  /**
   The handler as straight-line code: the divisions in source order, then the
   sampling loop. Its outcome is fixed by the request alone: the failing
   division, the empty script from a ratio of -1 or less, and otherwise the
   closed-form list of move/delay pairs for samples 0..steps. It agrees with
   `Plan` on every request.
   */
  method Handle(req: Request) returns (r: Result<seq<Command>, Error>)
    ensures req.speed == 0.0 ==> r == Failure(ZeroDivision(BySpeed))
    ensures req.speed != 0.0 && req.tickInterval == 0
            ==> r == Failure(ZeroDivision(ByTickDuration))
    ensures req.speed != 0.0 && req.tickInterval != 0 ==>
              var steps := Trunc(StepRatio(req));
              && ((r == Failure(ZeroDivision(BySteps))) <==> (-1.0 < StepRatio(req) < 1.0))
              && (r == Success([]) <==> StepRatio(req) <= -1.0)
              && (StepRatio(req) >= 1.0 ==> r == Success(Pairs(req, steps, steps + 1)))
    ensures r == Plan(req)
  {
    var tickDuration := TickDuration(req.tickInterval);
    if req.speed == 0.0 {
      return Failure(ZeroDivision(BySpeed));
    }
    var duration := req.distance / req.speed;
    if tickDuration == 0.0 {
      return Failure(ZeroDivision(ByTickDuration));
    }
    var steps := Trunc(duration / tickDuration);
    TruncZeroIff(StepRatio(req));
    TruncNegativeIff(StepRatio(req));
    if steps + 1 <= 0 {
      return Success([]);
    }
    if steps == 0 {
      return Failure(ZeroDivision(BySteps));
    }
    var cs := Discretise(req, steps);
    return Success(cs);
  }
}
